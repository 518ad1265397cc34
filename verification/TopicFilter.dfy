/** `topic_matches` and `validate_topic`: substitution, the `$` boundary, and how
    the result relates to section 4.7 of MQTT Version 5.0. */
module TopicFilter {
  import opened Results
  import opened Strings
  import opened TopicRegex

  predicate StartsWithDollar(s: string) {
    "$" <= s
  }

  // ----- substitution of %u and %c

  predicate Missing(level: string, username: string, clientid: string) {
    (level == "%u" && username == "") || (level == "%c" && clientid == "")
  }

  function Resolve(level: string, username: string, clientid: string): string {
    if level == "%u" then username else if level == "%c" then clientid else level
  }

  predicate Resolvable(levels: seq<string>, username: string, clientid: string) {
    forall i :: 0 <= i < |levels| ==> !Missing(levels[i], username, clientid)
  }

  function ResolveAll(levels: seq<string>, username: string, clientid: string): seq<string> {
    seq(|levels|, i requires 0 <= i < |levels| => Resolve(levels[i], username, clientid))
  }

  function Expanded(pattern: string, username: string, clientid: string): string {
    Join(ResolveAll(Split(pattern, '/'), username, clientid), '/')
  }

  // ----- what a match means

  /** An expanded filter and a topic, level by level. */
  predicate FilterMatches(filter: string, topic: string) {
    && (StartsWithDollar(topic) ==> StartsWithDollar(filter))
    && (|| LevelsMatch(Split(filter, '/'), Split(topic, '/'))
        || (EndsInNewline(topic) && LevelsMatch(Split(filter, '/'), Split(topic[..|topic| - 1], '/'))))
  }

  /** The meaning of an ACL topic for one client. */
  predicate Admits(pattern: string, topic: string, username: string, clientid: string, literal: bool) {
    var filter := Expanded(pattern, username, clientid);
    && Resolvable(Split(pattern, '/'), username, clientid)
    && (StartsWithDollar(topic) ==> StartsWithDollar(filter))
    && if literal then filter == topic else FilterMatches(filter, topic)
  }

  /** `topic_matches`, by way of the regular expression. */
  method TopicMatches(pattern: string, topic: string, username: string, clientid: string, literal: bool)
    returns (matched: bool)
    ensures matched <==> Admits(pattern, topic, username, clientid, literal)
  {
    var levels := Split(pattern, '/');
    var expanded: seq<string> := [];
    for i := 0 to |levels|
      invariant Resolvable(levels[..i], username, clientid)
      invariant expanded == ResolveAll(levels[..i], username, clientid)
    {
      var level := levels[i];
      if level == "%u" {
        if username == "" { return false; }
        expanded := expanded + [username];
      } else if level == "%c" {
        if clientid == "" { return false; }
        expanded := expanded + [clientid];
      } else {
        expanded := expanded + [level];
      }
    }
    assert levels[..|levels|] == levels;
    var filter := Join(expanded, '/');
    if StartsWithDollar(topic) && !StartsWithDollar(filter) { return false; }
    if literal { return filter == topic; }
    CompilerCorrect(filter, topic);
    matched := ReMatch(Expression(filter), topic);
  }

  // ----- the filter validator

  datatype Rejection = InvalidLevel | HashNotFinal | PlusNotAlone | PlaceholderNotAlone

  function CheckLevels(levels: seq<string>, index: nat): Option<Rejection>
    requires index <= |levels|
    decreases |levels| - index
  {
    if index == |levels| then None
    else
      var level := levels[index];
      if '#' in level && (level != "#" || index != |levels| - 1) then Some(HashNotFinal)
      else if '+' in level && level != "+" then Some(PlusNotAlone)
      else if (Contains(level, "%u") || Contains(level, "%c")) && level != "%u" && level != "%c"
      then Some(PlaceholderNotAlone)
      else CheckLevels(levels, index + 1)
  }

  function ValidateTopic(value: string): Result<string, Rejection> {
    if '\0' in value || Contains(value, "//") then Err(InvalidLevel)
    else match CheckLevels(Split(value, '/'), 0)
      case Some(why) => Err(why)
      case None => Ok(value)
  }

  ghost predicate HashOnlyLast(levels: seq<string>) {
    forall i :: 0 <= i < |levels| - 1 ==> levels[i] != "#"
  }

  /** Somewhere in the level stands `%u` or `%c`. */
  predicate HoldsPlaceholder(level: string) {
    exists i :: 0 <= i < |level| - 1 && level[i] == '%' && (level[i + 1] == 'u' || level[i + 1] == 'c')
  }

  /** Wildcards and placeholders occupy whole levels, and `#` the last one. */
  predicate WellPlaced(levels: seq<string>, i: int) {
    && 0 <= i < |levels|
    && ('#' in levels[i] ==> levels[i] == "#" && i == |levels| - 1)
    && ('+' in levels[i] ==> levels[i] == "+")
    && (HoldsPlaceholder(levels[i]) ==> |levels[i]| == 2)
  }

  lemma {:induction false} PlaceholderFound(level: string)
    ensures HoldsPlaceholder(level) <==> Contains(level, "%u") || Contains(level, "%c")
    ensures (level == "%u" || level == "%c") <==> |level| == 2 && HoldsPlaceholder(level)
  {
    ContainsPair(level, "%u");
    ContainsPair(level, "%c");
    assert |level| == 2 ==> level == [level[0], level[1]];
  }

  lemma {:induction false} CheckedLevels(levels: seq<string>, index: nat)
    requires index <= |levels|
    ensures CheckLevels(levels, index) == None <==> forall i :: index <= i < |levels| ==> WellPlaced(levels, i)
    decreases |levels| - index
  {
    if index < |levels| {
      PlaceholderFound(levels[index]);
      CheckedLevels(levels, index + 1);
      if forall i :: index <= i < |levels| ==> WellPlaced(levels, i) { assert WellPlaced(levels, index); }
    }
  }

  /** What the validator accepts, and that it returns its input. */
  lemma {:induction false} ValidIff(value: string)
    ensures ValidateTopic(value).Ok? ==> ValidateTopic(value).value == value
    ensures ValidateTopic(value).Ok? <==>
            && '\0' !in value
            && !(exists i :: 0 <= i < |value| - 1 && value[i] == '/' && value[i + 1] == '/')
            && (forall i :: 0 <= i < |Split(value, '/')| ==> WellPlaced(Split(value, '/'), i))
  {
    CheckedLevels(Split(value, '/'), 0);
    ContainsPair(value, "//");
    assert "//"[0] == '/' && "//"[1] == '/';
    assert ValidateTopic(value).Ok? <==>
           '\0' !in value && !Contains(value, "//") && CheckLevels(Split(value, '/'), 0) == None;
    assert CheckLevels(Split(value, '/'), 0) == None <==>
           forall i :: 0 <= i < |Split(value, '/')| ==> WellPlaced(Split(value, '/'), i);
    assert Contains(value, "//") <==> exists i :: 0 <= i < |value| - 1 && value[i] == '/' && value[i + 1] == '/';
  }

  lemma {:induction false} ValidHash(pattern: string, i: nat)
    requires ValidateTopic(pattern).Ok? && i < |Split(pattern, '/')| && '#' in Split(pattern, '/')[i]
    ensures Split(pattern, '/')[i] == "#" && i == |Split(pattern, '/')| - 1
  {
    ValidIff(pattern);
    assert WellPlaced(Split(pattern, '/'), i);
  }

  // ----- section 4.7 of MQTT Version 5.0

  /** 4.7.1.2 and 4.7.1.3: `#` stands for any number of levels, `+` for any one. */
  predicate Section471(filters: seq<string>, levels: seq<string>) {
    if filters == [] then levels == []
    else if filters == ["#"] then true
    else levels != [] && (filters[0] == "+" || filters[0] == levels[0]) && Section471(filters[1..], levels[1..])
  }

  /** With 4.7.2: a filter that starts with a wildcard does not match a `$` topic. */
  predicate Section47(filters: seq<string>, levels: seq<string>)
    requires filters != [] && levels != []
  {
    && Section471(filters, levels)
    && !(levels[0] != "" && levels[0][0] == '$' && (filters[0] == "#" || filters[0] == "+"))
  }

  /** A `+` faces a level without characters. */
  predicate PlusFacesEmpty(filters: seq<string>, levels: seq<string>) {
    exists i :: 0 <= i < |filters| && i < |levels| && filters[i] == "+" && levels[i] == ""
  }

  /** A final `#` faces a level with a newline, which `.` does not match. */
  predicate HashFacesNewline(filters: seq<string>, levels: seq<string>) {
    filters != [] && filters[|filters| - 1] == "#" && |filters| - 1 <= |levels|
    && !AllNoNewline(levels[|filters| - 1..])
  }

  lemma {:induction false} LevelsMatchIsSection471(filters: seq<string>, levels: seq<string>)
    requires HashOnlyLast(filters)
    ensures LevelsMatch(filters, levels) <==>
            Section471(filters, levels) && !PlusFacesEmpty(filters, levels) && !HashFacesNewline(filters, levels)
  {
    if filters == ["#"] {
      assert levels[0..] == levels;
    } else if filters != [] && levels != [] {
      var fs, ls := filters[1..], levels[1..];
      LevelsMatchIsSection471(fs, ls);
      if fs != [] && |fs| <= |levels| { assert levels[|fs|..] == ls[|fs| - 1..]; }
    }
  }

  lemma {:induction false} SplitKeepsDollar(s: string)
    ensures StartsWithDollar(s) <==> StartsWithDollar(Split(s, '/')[0])
    ensures StartsWithDollar(s) <==> s != "" && s[0] == '$'
  {
  }

  /** Names that stay one literal level when substituted. */
  predicate PlainName(name: string) {
    '/' !in name && name != "#" && name != "+"
  }

  lemma {:induction false} ExpandedLevels(pattern: string, username: string, clientid: string)
    requires '/' !in username && '/' !in clientid
    ensures Split(Expanded(pattern, username, clientid), '/') == ResolveAll(Split(pattern, '/'), username, clientid)
  {
    SplitParts(pattern, '/');
    SplitJoin(ResolveAll(Split(pattern, '/'), username, clientid), '/');
  }

  /** Level by level, `%u` becomes the username and `%c` the client id. */
  lemma {:induction false} FilledLevels(pattern: string, username: string, clientid: string)
    requires '/' !in username && '/' !in clientid
    ensures var levels, filled := Split(pattern, '/'), Split(Expanded(pattern, username, clientid), '/');
            |filled| == |levels| && forall k :: 0 <= k < |levels| ==>
              filled[k] == if levels[k] == "%u" then username else if levels[k] == "%c" then clientid else levels[k]
  {
    ExpandedLevels(pattern, username, clientid);
  }

  /** A filter that asks for a name which is not there admits nothing. */
  lemma {:induction false} MissingNameAdmitsNothing(
      pattern: string, topic: string, username: string, clientid: string, literal: bool)
    requires ("%u" in Split(pattern, '/') && username == "") || ("%c" in Split(pattern, '/') && clientid == "")
    ensures !Admits(pattern, topic, username, clientid, literal)
  {
  }

  /** A literal match is equality, once the placeholders are filled in. */
  lemma {:induction false} LiteralIsEquality(pattern: string, topic: string, username: string, clientid: string)
    requires username != "" && clientid != ""
    ensures Admits(pattern, topic, username, clientid, true) <==> Expanded(pattern, username, clientid) == topic
  {
  }

  /** What remains of section 4.7 in the code: no `+` against an empty level, and no
      `#` across a newline. */
  predicate NarrowSection47(filter: string, topic: string) {
    var filters, levels := Split(filter, '/'), Split(topic, '/');
    Section47(filters, levels) && !PlusFacesEmpty(filters, levels) && !HashFacesNewline(filters, levels)
  }

  /** Where `#` stands in no level but the last, matching level by level is section 4.7
      but for those two; the `$` boundary is that of section 4.7.2. */
  lemma {:induction false} LevelsMatchIsNarrow(filter: string, topic: string)
    requires HashOnlyLast(Split(filter, '/'))
    ensures NarrowSection47(filter, topic) <==>
            (StartsWithDollar(topic) ==> StartsWithDollar(filter)) && LevelsMatch(Split(filter, '/'), Split(topic, '/'))
  {
    LevelsMatchIsSection471(Split(filter, '/'), Split(topic, '/'));
    SplitKeepsDollar(filter);
    SplitKeepsDollar(topic);
  }

  /** The code agrees with section 4.7 for every topic and all names that leave a filter
      in which `#` is final, except that it turns down exactly the matches in which a
      `+` faces an empty level or a `#` a newline, and overlooks a final newline. */
  lemma {:induction false} MatchIsSection47(pattern: string, topic: string, username: string, clientid: string)
    requires HashOnlyLast(Split(Expanded(pattern, username, clientid), '/'))
    ensures var filter := Expanded(pattern, username, clientid);
            Admits(pattern, topic, username, clientid, false) <==>
            && Resolvable(Split(pattern, '/'), username, clientid)
            && (NarrowSection47(filter, topic)
                || (EndsInNewline(topic) && NarrowSection47(filter, topic[..|topic| - 1])))
  {
    var filter := Expanded(pattern, username, clientid);
    LevelsMatchIsNarrow(filter, topic);
    if EndsInNewline(topic) {
      LevelsMatchIsNarrow(filter, topic[..|topic| - 1]);
      assert StartsWithDollar(topic) <==> StartsWithDollar(topic[..|topic| - 1]);
    }
  }

  /** On a validated filter, names that are no wildcards themselves, and a topic without
      newline, only the empty level makes a difference. */
  lemma {:induction false} ValidatedMatchIsSection47(pattern: string, topic: string, username: string, clientid: string)
    requires ValidateTopic(pattern).Ok? && NoNewline(topic)
    requires PlainName(username) && PlainName(clientid)
    ensures var filters, levels := ResolveAll(Split(pattern, '/'), username, clientid), Split(topic, '/');
            Admits(pattern, topic, username, clientid, false) <==>
            && Resolvable(Split(pattern, '/'), username, clientid)
            && Section47(filters, levels)
            && !PlusFacesEmpty(filters, levels)
  {
    ExpandedLevels(pattern, username, clientid);
    var names := Split(pattern, '/');
    forall i | 0 <= i < |names| - 1 ensures ResolveAll(names, username, clientid)[i] != "#" {
      if names[i] == "#" {
        assert "#"[0] in names[i];
        ValidHash(pattern, i);
      }
    }
    NoNewlineInLevels(topic);
    MatchIsSection47(pattern, topic, username, clientid);
    assert !EndsInNewline(topic);
  }

  /** Names without `#`, slashes or not, leave a validated filter with `#` final. */
  lemma {:induction false} ValidatedStaysFinal(pattern: string, username: string, clientid: string)
    requires ValidateTopic(pattern).Ok? && '#' !in username && '#' !in clientid
    ensures HashOnlyLast(Split(Expanded(pattern, username, clientid), '/'))
  {
    var levels := Split(pattern, '/');
    var parts := ResolveAll(levels, username, clientid);
    forall i | 0 <= i < |parts| && '#' in parts[i] ensures parts[i] == "#" && i == |parts| - 1 {
      ValidHash(pattern, i);
      assert |levels[i]| == 1;
    }
    FinalInJoin(parts);
  }

  /** Joined levels of which only the last may be `#`, and none else holds a `#`. */
  lemma {:induction false} FinalInJoin(parts: seq<string>)
    requires parts != []
    requires forall i :: 0 <= i < |parts| && '#' in parts[i] ==> parts[i] == "#" && i == |parts| - 1
    ensures HashOnlyLast(Split(Join(parts, '/'), '/'))
  {
    if |parts| == 1 {
      HashOnlyInOne(parts[0]);
    } else {
      FinalInJoin(parts[1..]);
      SplitConcat(parts[0], Join(parts[1..], '/'), '/');
      JoinCons(parts, '/');
      assert parts[0] + ['/'] + Join(parts[1..], '/') == Join(parts, '/');
      NoHashLevel(parts[0]);
    }
  }

  lemma {:induction false} HashOnlyInOne(part: string)
    requires '#' in part ==> part == "#"
    ensures HashOnlyLast(Split(part, '/'))
  {
    if '#' in part { SplitWithoutSep(part, '/'); } else { NoHashLevel(part); }
  }

  lemma {:induction false} NoHashLevel(part: string)
    requires '#' !in part
    ensures forall i :: 0 <= i < |Split(part, '/')| ==> Split(part, '/')[i] != "#"
  {
    SplitKeepsChars(part, '/', '#');
    assert "#"[0] == '#';
    forall i | 0 <= i < |Split(part, '/')| ensures Split(part, '/')[i] != "#" {
      assert Split(part, '/')[i] in Split(part, '/');
    }
  }

  /** A name without wildcards and placeholders admits itself. */
  lemma {:induction false} NameAdmitsItself(name: string)
    requires PlainName(name) && name != "%u" && name != "%c"
    ensures forall username, clientid :: Admits(name, name, username, clientid, false)
  {
    SplitWithoutSep(name, '/');
    assert forall username, clientid :: ResolveAll([name], username, clientid) == [name];
    assert LevelsMatch([], []);
    assert [name][1..] == [];
    assert LevelsMatch([name], [name]);
  }

  /** The difference shows on every level name: `sport/+` and the topic `sport/`. */
  lemma {:induction false} PlusTurnsDownEmptyLevel(name: string, username: string, clientid: string)
    requires PlainName(name) && name != "%u" && name != "%c" && NoNewline(name)
    ensures var byStandard := Section47(Split(name + "/" + "+", '/'), Split(name + "/" + "", '/'));
            var byCode := Admits(name + "/" + "+", name + "/" + "", username, clientid, false);
            (byStandard, byCode) == (true, false)
  {
    var filter, topic := name + "/" + "+", name + "/" + "";
    SplitOfTwo(name, "+");
    SplitOfTwo(name, "");
    var filters, levels := [name, "+"], [name, ""];
    assert filters[1..] == ["+"] && levels[1..] == [""];
    assert ResolveAll(filters, username, clientid) == filters;
    JoinSplit(filter, '/');
    assert Expanded(filter, username, clientid) == filter;
    assert !LevelsMatch(filters[1..], levels[1..]);
    assert !LevelsMatch(filters, levels);
    assert topic[|topic| - 1] == '/';
    assert Section47(filters, levels) && !FilterMatches(filter, topic);
  }

  /** And on every level name: a topic that ends in a newline is taken for the one
      without, although they are two. */
  lemma {:induction false} FinalNewlineIsOverlooked(name: string, username: string, clientid: string)
    requires PlainName(name) && name != "%u" && name != "%c" && NoNewline(name)
    ensures var byStandard := Section47(Split(name, '/'), Split(name + "\n", '/'));
            var byCode := Admits(name, name + "\n", username, clientid, false);
            (byStandard, byCode) == (false, true)
  {
    var topic := name + "\n";
    NameAdmitsItself(name);
    assert Admits(name, name, username, clientid, false);
    SplitWithoutSep(name, '/');
    SplitWithoutSep(topic, '/');
    assert [name][1..] == [] && topic[..|topic| - 1] == name && topic[|name|] == '\n';
    assert !EndsInNewline(name);
  }

  /** And a `#` does not reach across a newline: `sport/#` and a level with one inside. */
  lemma {:induction false} HashStopsAtNewline(name: string, level: string, username: string, clientid: string)
    requires PlainName(name) && name != "%u" && name != "%c" && name != ""
    requires '/' !in level && '\n' in level && !EndsInNewline(level)
    ensures var byStandard := Section47(Split(name + "/" + "#", '/'), Split(name + "/" + level, '/'));
            var byCode := Admits(name + "/" + "#", name + "/" + level, username, clientid, false);
            (byStandard, byCode) == (true, false)
  {
    var filter, topic := name + "/" + "#", name + "/" + level;
    SplitOfTwo(name, "#");
    SplitOfTwo(name, level);
    var filters, levels := [name, "#"], [name, level];
    assert filters[1..] == ["#"] && levels[1..] == [level] && level in levels;
    assert ResolveAll(filters, username, clientid) == filters;
    JoinSplit(filter, '/');
    assert Expanded(filter, username, clientid) == filter;
    assert !AllNoNewline([level]) by { assert !NoNewline([level][0]); }
    assert !LevelsMatch(filters[1..], levels[1..]);
    assert !LevelsMatch(filters, levels);
    assert topic[|topic| - 1] == level[|level| - 1] && !EndsInNewline(topic);
    assert Split(filter, '/') == filters && Split(topic, '/') == levels;
    assert !FilterMatches(filter, topic);
    assert Section47(filters, levels);
  }

  lemma {:induction false} SplitOfTwo(a: string, b: string)
    requires '/' !in a && '/' !in b
    ensures Split(a + "/" + b, '/') == [a, b]
  {
    SplitConcat(a, b, '/');
    SplitWithoutSep(a, '/');
    SplitWithoutSep(b, '/');
  }

  // ----- an ACL filter checked against the text of a subscription filter

  lemma {:induction false} MatchedLevelwise(filters: seq<string>, levels: seq<string>)
    requires LevelsMatch(filters, levels) && "#" !in filters
    ensures |levels| == |filters|
    ensures forall i :: 0 <= i < |filters| ==> LevelMatches(filters[i], levels[i])
  {
    if filters != [] { MatchedLevelwise(filters[1..], levels[1..]); }
  }

  /** Levels that match one another pointwise are interchangeable below a filter. */
  lemma {:induction false} LevelsCovered(acl: seq<string>, sub: seq<string>, levels: seq<string>)
    requires LevelsMatch(acl, sub) && |levels| == |sub| && AllNoNewline(levels)
    requires forall i :: 0 <= i < |sub| ==> LevelMatches(sub[i], levels[i])
    ensures LevelsMatch(acl, levels)
  {
    if acl != [] && acl != ["#"] {
      if acl[0] == "#" {
        var k :| 1 <= k <= |sub| && AllNoNewline(sub[..k]) && LevelsMatch(acl[1..], sub[k..]);
        LevelsCovered(acl[1..], sub[k..], levels[k..]);
        assert AllNoNewline(levels[..k]);
      } else {
        LevelsCovered(acl[1..], sub[1..], levels[1..]);
      }
    }
  }

  /** If an ACL filter matches the text of a subscription filter without a `#`
      level, it matches every topic that the subscription filter matches. */
  lemma {:induction false} SubscriptionCovered(acl: string, sub: string, topic: string)
    requires FilterMatches(acl, sub) && "#" !in Split(sub, '/')
    requires FilterMatches(sub, topic) && NoNewline(topic)
    ensures FilterMatches(acl, topic)
  {
    var subs, levels := Split(sub, '/'), Split(topic, '/');
    MatchedLevelwise(subs, levels);
    NoNewlineInLevels(topic);
    assert NoNewline(sub) by {
      forall i | 0 <= i < |subs| ensures NoNewline(subs[i]) {
        assert LevelMatches(subs[i], levels[i]);
      }
      NoNewlineInLevels(sub);
    }
    LevelsCovered(Split(acl, '/'), subs, levels);
    SplitKeepsDollar(sub);
    SplitKeepsDollar(topic);
    assert LevelMatches(subs[0], levels[0]);
  }

  /** With a final `#` on both sides and at least as many levels, the check is safe too. */
  lemma {:induction false} HashCovered(acl: seq<string>, sub: seq<string>, levels: seq<string>)
    requires acl != [] && sub != [] && acl[|acl| - 1] == "#" && sub[|sub| - 1] == "#" && |acl| <= |sub|
    requires HashOnlyLast(acl) && HashOnlyLast(sub)
    requires LevelsMatch(acl, sub) && LevelsMatch(sub, levels) && AllNoNewline(levels)
    ensures LevelsMatch(acl, levels)
  {
    if acl != ["#"] { HashCovered(acl[1..], sub[1..], levels[1..]); }
  }

  lemma {:induction false} HashMisses(acl: seq<string>, sub: seq<string>)
    requires acl != [] && sub != [] && sub[|sub| - 1] == "#"
    requires HashOnlyLast(acl) && HashOnlyLast(sub) && LevelsMatch(acl, sub)
    requires acl[|acl| - 1] == "#" ==> |acl| > |sub|
    ensures !LevelsMatch(acl, sub[..|sub| - 1] + ["", ""])
  {
    var bad := sub[..|sub| - 1] + ["", ""];
    if |sub| > 1 {
      assert acl != ["#"] && acl[0] != "#";
      if acl[1..] != [] {
        HashMisses(acl[1..], sub[1..]);
        assert bad[1..] == sub[1..][..|sub| - 2] + ["", ""];
      }
    } else {
      assert acl[0] == "+" && bad[0] == "";
    }
  }

  lemma {:induction false} WitnessMatches(sub: seq<string>)
    requires sub != [] && sub[|sub| - 1] == "#" && HashOnlyLast(sub) && AllNoNewline(sub)
    ensures LevelsMatch(sub, sub[..|sub| - 1] + ["", ""])
  {
    var levels := sub[..|sub| - 1] + ["", ""];
    if |sub| > 1 {
      WitnessMatches(sub[1..]);
      assert levels[1..] == sub[1..][..|sub| - 2] + ["", ""];
    } else {
      assert sub == ["#"] && levels == ["", ""];
    }
  }

  /** The exact condition under which checking a subscription filter by its text is
      safe: it has no `#`, or the ACL filter ends in `#` at or before that level. */
  lemma {:induction false} SubscriptionCheckIsSafeIff(acl: string, sub: string)
    requires HashOnlyLast(Split(acl, '/')) && HashOnlyLast(Split(sub, '/'))
    requires FilterMatches(acl, sub) && NoNewline(sub)
    ensures var acls, subs := Split(acl, '/'), Split(sub, '/');
            (forall topic :: NoNewline(topic) && FilterMatches(sub, topic) ==> FilterMatches(acl, topic)) <==>
            (subs[|subs| - 1] == "#" ==> acls[|acls| - 1] == "#" && |acls| <= |subs|)
  {
    var acls, subs := Split(acl, '/'), Split(sub, '/');
    assert !EndsInNewline(sub);
    if subs[|subs| - 1] != "#" {
      forall topic | NoNewline(topic) && FilterMatches(sub, topic) ensures FilterMatches(acl, topic) {
        SubscriptionCovered(acl, sub, topic);
      }
    } else if acls[|acls| - 1] == "#" && |acls| <= |subs| {
      forall topic | NoNewline(topic) && FilterMatches(sub, topic) ensures FilterMatches(acl, topic) {
        assert !EndsInNewline(topic);
        NoNewlineInLevels(topic);
        HashCovered(acls, subs, Split(topic, '/'));
      }
    } else {
      UnsafeSubscription(acl, sub);
    }
  }

  /** Otherwise two empty levels in place of the `#` give a topic that escapes. */
  lemma {:induction false} UnsafeSubscription(acl: string, sub: string)
    requires HashOnlyLast(Split(acl, '/')) && HashOnlyLast(Split(sub, '/'))
    requires FilterMatches(acl, sub) && NoNewline(sub)
    requires var acls, subs := Split(acl, '/'), Split(sub, '/');
             subs[|subs| - 1] == "#" && (acls[|acls| - 1] == "#" ==> |acls| > |subs|)
    ensures exists topic :: NoNewline(topic) && FilterMatches(sub, topic) && !FilterMatches(acl, topic)
  {
    var acls, subs := Split(acl, '/'), Split(sub, '/');
    var levels := subs[..|subs| - 1] + ["", ""];
    var topic := Join(levels, '/');
    SplitParts(sub, '/');
    SplitJoin(levels, '/');
    NoNewlineInLevels(sub);
    NoNewlineInLevels(topic);
    assert !EndsInNewline(sub) && !EndsInNewline(topic);
    WitnessMatches(subs);
    HashMisses(acls, subs);
    SplitKeepsDollar(topic);
    SplitKeepsDollar(sub);
    assert FilterMatches(sub, topic) && !FilterMatches(acl, topic);
  }
}
