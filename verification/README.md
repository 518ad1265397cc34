# The Mosquitto control plane, modelled and proved in Dafny

The repository runs a Mosquitto broker with Dynamic Security and an administration
service beside it. This project models the parts of it whose mistakes would be silent:

- **Permission decisions** (`admin-api/app/policy.py`). `topic_matches` compiles an MQTT
  topic filter to a regular expression and runs it; `evaluate_permission` sorts roles and
  rules by priority and takes the first rule that matches. The expression is modelled as
  text, with the reading that Python's `re` gives it, and is proved to accept exactly what
  a level-by-level matcher does. The nested stable sorts are proved to select the unique
  best rule of a lexicographic order that mentions no order of evaluation.
- **Migration** (`scripts/migrate_dynsec.py`). Password, owner and ACL files become a
  Dynamic Security state. The state, put through `evaluate_permission`, answers as the
  legacy rules do; deduplication is canonical; nobody is lost or listed twice.
- **The audit log** (`admin-api/app/audit.py`). Appended events form a hash chain. The
  canonical JSON text is a real printer with a real parser; any number of concurrent
  writers leave one verifying chain; the head binds the log, and tampering is reported
  where it happened.
- **The rate limiter and audited mutations** (`admin-api/app/auth.py`,
  `admin-api/app/main.py`). The pruned queue decides as counting the whole history would;
  commands are bounded, and each leaves one event unless it is lost in one of two ways.
- **Cutover and rollback** (the shell scripts). For every set of failing commands, exit
  status zero leaves the candidate live, and otherwise the original bytes are live or an
  intact checkpoint is left.

## Layout

| module | holds |
|---|---|
| `Results`, `Sequences`, `Strings`, `Sorting` | options and results; distinct elements; split, join, tokens, lines, numbers; stable sorting |
| `TopicRegex`, `TopicFilter`, `Subscriptions` | the compiler and its correctness; `topic_matches`, `validate_topic`, MQTT 5.0 section 4.7; what a checked subscription is delivered |
| `Policy` | `evaluate_permission` and what its result does not depend on |
| `LegacyAcl`, `RuleSets`, `Accounts` | ACL file, deduplication, password and owner files |
| `Migration`, `MigrationIntegrity`, `LegacyMeaning` | `migrate`, the meaning of its output, its conservation laws, and the same from the text of the ACL file |
| `Json`, `Redaction` | `json.dumps` with sorted keys, `json.loads`, `redact` |
| `Audit`, `AuditChain`, `AuditWriters` | `append_event` and `verify_chain`, tampering, concurrent writers |
| `RateLimiter`, `BrokerMutation` | `RateLimiter.check`, `broker_mutation` and whole runs of the service |
| `Cutover` | migrate-dynsec.sh, rollback-dynsec.sh, install-dynsec-state.sh |

Code that changes things step by step is a method or a class here, each tied by its
`ensures` to a function of its input or old state, about which the lemmas speak. Every
lemma says `{:induction false}`: what is proved by induction is proved by the calls one
sees. `dafny verify dfyconfig.toml` verifies the project; nothing was executed.

## What turned out not to hold as the comments and documents suggest

- `+` does not match an empty level, although section 4.7.1.3 of MQTT Version 5.0 lets it;
  `.` crosses no newline, and `$` also stands before a final one. `MatchIsSection47` says
  that these are the only differences, `PlusTurnsDownEmptyLevel`,
  `HashStopsAtNewline` and `FinalNewlineIsOverlooked` give a filter and topic of each kind
  for every level name, and `CompilerCorrect` holds for every filter and topic.
- An ACL rule is matched against the text of a subscription filter, and the broker then
  delivers by section 4.7. What is delivered can go beyond the rule: with `#`, and, because
  `+` does not match an empty level in the rule, also with `+` against `+`, as in a rule
  and a subscription `a/+` and the topic `a/`. `DeliveryIsCoveredIff` gives the exact
  condition. Matched by the code itself on both sides, as between two rules, only `#`
  matters: `SubscriptionCheckIsSafeIff`.
- A legacy identity named `admin` is not refused; its legacy rules have no effect.
  `MeaningKeptIff` says that meaning is kept for a user, whatever the ACL file, exactly
  when the user is not named `admin`; `UsernamesDistinctIff` that usernames are unique
  under the same condition; `GroupNamesDistinctIff` that group names are unique exactly
  when no owner's group is `unauthenticated`.
- `deduplicate_acls` leaves two rules that differ only in `allow` in the order they came
  in. `OrderIsIrrelevantIff` says that the result is independent of the input order
  exactly when there are no two such rules; parsed rules never differ so (`RoleIsCanonical`),
  because the priority tells whether a rule allows.
- A mutation is left without an audit event, although its command may have been sent, when
  the broker raises an exception other than `BrokerError` or the row is not committed.
  `OneEventEach` says that there is one event for each exactly when neither happens.
- The limiter's key joins subject and address with a colon, so two actors whose joined
  texts coincide, such as `a:b` at `c` and `a` at `b:c`, share one limit: `SameKeyIff`.
- If only the last message of migrate-dynsec.sh fails, the status is not zero although
  the candidate is live: `Cutover.Host.Migrate`.

## Model

| member | source | states |
|---|---|---|
| TopicRegex.SpecialIff | admin-api/app/policy.py:33 | The characters that are escaped are the metacharacters, `&`, `~`, `#`, `-` and blanks, and no others |
| TopicRegex.WrittenTexts | admin-api/app/policy.py:32-35 | A filter `+` is written `^[^/]+$`, a filter `#` `^.*$`, and a special character behind a backslash |
| TopicRegex.WrittenTail | admin-api/app/policy.py:36-37 | `/#` is written `^(?:/.*)?$` |
| TopicRegex.ReadText | admin-api/app/policy.py:32-35 | Reading the written items as `re` does gives back exactly those items: escaping loses nothing |
| TopicRegex.RewriteTouchesOnlyTheTail | admin-api/app/policy.py:36-37 | The textual replacement of `/.*$` changes the end of the expression and nothing before it, whatever the levels contain |
| TopicRegex.ExpressionDenotes | admin-api/app/policy.py:32-37 | The whole text, after the rewriting, parses to the compiled items of the filter's levels, for every filter |
| TopicRegex.DollarAllowsNewline | admin-api/app/policy.py:35-38 | Python's `$` adds exactly the strings with one more newline at the end |
| TopicRegex.CompiledAccepts | admin-api/app/policy.py:32-38 | The compiled items accept a topic exactly when the level-by-level matcher does, for every filter, wherever `#` stands in it |
| TopicRegex.CompilerCorrect | admin-api/app/policy.py:32-38 | `re.match` on the generated text succeeds exactly when the levels match, or the topic ends in a newline and matches without it; for every filter and topic |
| TopicFilter.TopicMatches | admin-api/app/policy.py:11-38 | The code's loop and expression return true exactly when every placeholder has a value, the `$` boundary holds, and the expanded filter matches level by level (or equals the topic, when literal) |
| TopicFilter.CheckedLevels | admin-api/app/schemas.py:54-61 | The loop accepts exactly the lists in which every wildcard and placeholder is a whole level, and `#` the last one |
| TopicFilter.ValidIff | admin-api/app/schemas.py:51-62 | The validator accepts, and returns unchanged, exactly the filters without NUL, without two slashes in a row, and with wildcards and placeholders as whole levels, `#` last |
| TopicFilter.FilledLevels | admin-api/app/policy.py:12-25 | For names without `/`: the expanded filter has the levels of the pattern, with the username in place of each `%u`, the client id in place of each `%c`, and all others as they are |
| TopicFilter.MissingNameAdmitsNothing | admin-api/app/policy.py:15-22 | A filter with a level `%u` and no username, or `%c` and no client id, matches no topic |
| TopicFilter.LiteralIsEquality | admin-api/app/policy.py:30-31 | A literal match is equality of the expanded filter and the topic |
| TopicFilter.MatchIsSection47 | admin-api/app/policy.py:11-38 | For every topic and all names that leave `#` final: the code agrees with section 4.7 of MQTT 5.0, except that it turns down exactly the matches in which a `+` faces an empty level or a `#` a newline, and overlooks one newline at the end of the topic |
| TopicFilter.ValidatedMatchIsSection47 | admin-api/app/policy.py:11-38 | On a validated filter, names that are no wildcards themselves and a topic without newline, `+` against an empty level is the only difference |
| TopicFilter.ValidatedStaysFinal | admin-api/app/schemas.py:51-62 | Names without `#`, even with slashes, leave a validated filter in which `#` is final |
| TopicFilter.PlusTurnsDownEmptyLevel | admin-api/app/policy.py:33 | For every level name, `name/+` and the topic `name/`: section 4.7 matches, the code does not |
| TopicFilter.FinalNewlineIsOverlooked | admin-api/app/policy.py:35-38 | For every level name, the topic that has one more newline at the end is matched although section 4.7 tells the two apart |
| TopicFilter.HashStopsAtNewline | admin-api/app/policy.py:33-38 | For every level name, `name/#` and a topic with a newline inside the next level: section 4.7 matches, the code does not |
| TopicFilter.SubscriptionCovered | admin-api/app/policy.py:28-38 | Between filters, with the code's own matcher on both sides: one that matches the text of another without `#` matches every newline-free topic the other matches |
| TopicFilter.SubscriptionCheckIsSafeIff | admin-api/app/policy.py:28-38 | With the code's own matcher on both sides, the containment holds exactly when the other filter has no `#`, or the first ends in `#` at or before that level |
| TopicFilter.UnsafeSubscription | admin-api/app/policy.py:28-38 | Otherwise there is a topic that the other filter matches and the first does not, both by the code's own matcher |
| Subscriptions.DeliveryIsCoveredIff | admin-api/app/policy.py:28-38 | A subscription whose text an ACL filter matches is delivered, by section 4.7, no topic but those the ACL filter matches exactly when its final `#` is covered by one of the ACL filter and no `+` of the one stands against a `+` of the other (or it is `+` alone); for topic names without newline |
| Subscriptions.DeliveryCovered | admin-api/app/policy.py:28-38 | Under that condition each delivered topic is matched by the ACL filter |
| Subscriptions.BlankedEscapes | admin-api/app/policy.py:28-38 | Otherwise the topic with empty levels in place of the wildcards, and one more if the tail is not covered, is not matched |
| Subscriptions.BlankedIsTopic | admin-api/app/policy.py:28-38 | That topic is a topic name and is delivered to the subscription |
| Policy.ReachableIff | admin-api/app/policy.py:53-59 | A role counts when the client has it, or when one of the client's groups exists and has it |
| Policy.HitIff | admin-api/app/policy.py:61-68 | A rule counts when its role is reachable and exists, it has the asked type, and its filter admits the topic, literally for the two literal types |
| Policy.ChecksReach | admin-api/app/policy.py:52-59 | The list `role_checks` holds exactly the roles reachable directly or through a group |
| Policy.ChecksInOrder | admin-api/app/policy.py:52-59 | The nested sorts realise one lexicographic order: client before group, group priority down, group name up, role priority down, role name up |
| Strings.StrLeqIff | admin-api/app/policy.py:53-58 | The order of names is by the first differing code point, a prefix first |
| Policy.FirstRule | admin-api/app/policy.py:64-68 | Within a role, the rule found is the matching one of the asked type that leads by priority, then by list position |
| Policy.EvaluateDecides | admin-api/app/policy.py:52-77 | The verdict is that of the best reachable rule in the whole order, and the default exactly when no reachable rule has the type and matches |
| Policy.VerdictSpelledOut | admin-api/app/policy.py:69-77 | The verdict reports the best rule with its source, role and priority and what it says, or, when nothing counts, the value of the default or denial |
| Policy.DefaultOfType | admin-api/app/policy.py:75-76 | The key of the default for each of the six types of access |
| Policy.BestIsUnique | admin-api/app/policy.py:52-77 | No two rules are best |
| Policy.DecidesIsUnique | admin-api/app/policy.py:52-77 | The order-free description admits one verdict only |
| Policy.CollectChecks | admin-api/app/policy.py:52-59 | The two nested loops build exactly the specified list of checks |
| Policy.FindRule | admin-api/app/policy.py:64-68 | The inner loop returns the first rule, in priority order, whose filter matches |
| Policy.EvaluatePermission | admin-api/app/policy.py:41-77 | The code's loops return the verdict that the best rule, or else the default, decides |
| Policy.OrderOfAssignmentsIsIrrelevant | admin-api/app/policy.py:53-59 | Permuting or repeating a client's roles, its groups, or any group's roles changes no verdict |
| Policy.PermutationsAreIrrelevant | admin-api/app/policy.py:53-59 | Permuting a client's roles, its groups, or any group's roles changes no verdict |
| Policy.OrderOfRulesIsIrrelevant | admin-api/app/policy.py:64-66 | Nor does any reordering of a role's rules that keeps those of equal priority in order |
| Policy.GroupsCannotOverride | admin-api/app/policy.py:53-61 | A verdict by one of the client's own roles stands whatever groups are added or removed |
| LegacyAcl.ParseAclFile | scripts/migrate_dynsec.py:160-184 | The loop over lines computes the specified fold: rules of everyone, rules of each user, or the first fault with its line number |
| LegacyAcl.ParsedRules | scripts/migrate_dynsec.py:147-157 | In every file that parses, denying rules have priority 100, allowing ones 10, and only the four emitted types occur |
| LegacyMeaning.LineMeans | scripts/migrate_dynsec.py:131-157 | A line with keyword, access word and topic grants, to everyone for `pattern` and to the section for `topic`, exactly one rule for each type of access the word covers, on that topic, denying with priority 100 for `deny` and allowing with 10 otherwise |
| LegacyMeaning.BareLineMeans | scripts/migrate_dynsec.py:136-138 | A line without access word grants what `readwrite` does |
| LegacyMeaning.NameIff | scripts/migrate_dynsec.py:50 | A name is one or more letters, digits, dots, underscores and hyphens |
| LegacyMeaning.OtherLinesMean | scripts/migrate_dynsec.py:168-176 | Blank lines and comments say nothing, in both files; a `user` line names its user |
| LegacyMeaning.OtherDirective | scripts/migrate_dynsec.py:177-178 | A line with another keyword is refused as an unsupported directive |
| LegacyMeaning.BadUser | scripts/migrate_dynsec.py:171-174 | A `user` line without a proper name is refused as an invalid user |
| LegacyMeaning.UnknownAccess | scripts/migrate_dynsec.py:139-143 | A rule with an unknown word of access is refused as such |
| LegacyMeaning.ParseFault | scripts/migrate_dynsec.py:167-178 | The first line that cannot be read is the one that is reported, by its number from 1 |
| Strings.StripIs | scripts/migrate_dynsec.py:58 | Stripping takes the blanks around a text and leaves the text |
| Strings.LineEnds | scripts/migrate_dynsec.py:57 | Each line break ends a line, and the rest is split likewise |
| Strings.BlankCodes | scripts/migrate_dynsec.py:57-58 | The code points that count as blank and as line break |
| LegacyAcl.ParseUndoesWrite | scripts/migrate_dynsec.py:131-184 | Round trip: a file written from directives with explicit access words and normalised topics parses to exactly their rules, for everyone and for each user |
| LegacyAcl.ParseConcat | scripts/migrate_dynsec.py:160-184 | A file followed by one that starts with a user line parses to the pointwise concatenation, and fails exactly where either part does |
| RuleSets.Deduplicate | scripts/migrate_dynsec.py:187-195 | The loop over the dictionary and the sort compute the specified list |
| RuleSets.DeduplicatedMembers | scripts/migrate_dynsec.py:187-195 | Deduplication keeps the set of rules |
| RuleSets.DeduplicatedStrict | scripts/migrate_dynsec.py:187-195 | The result is strictly sorted exactly when no two rules differ only in `allow` |
| RuleSets.DeduplicatedIsCanonical | scripts/migrate_dynsec.py:187-195 | Without two rules that differ only in `allow`, lists with the same rules, in any order and number, give the same list |
| RuleSets.DeduplicatedIsIdempotent | scripts/migrate_dynsec.py:187-195 | Deduplicating twice is deduplicating once, for every list |
| RuleSets.DeduplicatedOrder | scripts/migrate_dynsec.py:192-195 | The result goes down in priority, then up in topic, then up in type |
| RuleSets.OrderIsIrrelevantIff | scripts/migrate_dynsec.py:187-195 | All orders and repetitions of the input give one result exactly when no two rules differ only in `allow` |
| RuleSets.OrderShows | scripts/migrate_dynsec.py:192-195 | For every list with two rules that differ only in `allow`, two reorderings of it with different results |
| RuleSets.OrderShowsWithoutGuarantee | scripts/migrate_dynsec.py:192-195 | The smallest such input: two rules that differ only in `allow` come out in the order they came in |
| RuleSets.SameRulesSameDecision | admin-api/app/policy.py:61-77 | States whose roles hold the same rules, rearranged only in roles in which equal priority implies equal `allow`, decide alike |
| RuleSets.DeduplicationKeepsDecisions | scripts/migrate_dynsec.py:187-195 | Replacing a role's rules by the deduplicated list keeps every decision when equal priority implies equal `allow` in that role, whatever the other roles hold |
| Accounts.CollectAccounts | scripts/migrate_dynsec.py:55-96 | The loop succeeds exactly when all lines are sound, identities are distinct and there is one, with one account for each login line, in order; otherwise it raises the error of the first line that stops it, or names the hashes to rotate, sorted, or reports that there is no identity |
| Accounts.ParsePasswordFile | scripts/migrate_dynsec.py:54-96 | The same from the file's text |
| Accounts.PasswordFaultIsUnique | scripts/migrate_dynsec.py:54-96 | The lines determine the error and its line |
| Accounts.OwnersOfRow | scripts/migrate_dynsec.py:107-117 | Every row is found under its identity |
| Accounts.CollectOwners | scripts/migrate_dynsec.py:107-117 | The loop reads all rows exactly when each is complete and names a new identity, and otherwise raises the error of the first that does not |
| Accounts.CheckCoverage | scripts/migrate_dynsec.py:119-127 | An error exactly when the identities differ, with the missing and the unknown ones as sorted lists |
| Accounts.ParseOwners | scripts/migrate_dynsec.py:99-128 | Succeeds exactly on complete rows with distinct identities that are those to migrate, and gives the owner of each; otherwise raises the error of the header, of the first faulty row, or of the coverage, in this order |
| Accounts.OwnersFaultIsUnique | scripts/migrate_dynsec.py:99-128 | Header, rows and identities determine the error |
| Accounts.LoginReads | scripts/migrate_dynsec.py:61-71 | A line names an identity up to the first colon, and the rest, colons included, is its hash; a name alone is malformed |
| Accounts.BadNameReads | scripts/migrate_dynsec.py:64-65 | What stands before the first colon and is no name is refused as an invalid username |
| Accounts.HashIsReadIff | scripts/migrate_dynsec.py:70-86 | A hash can be migrated exactly when it starts with `$argon2id$`, and is then kept as it is, or is a PBKDF2 entry |
| Accounts.Pbkdf2Reads | scripts/migrate_dynsec.py:72-83 | A PBKDF2 entry gives iterations, salt and password in this order |
| Migration.BuildGroups | scripts/migrate_dynsec.py:268-293 | Filling the group dictionary identity by identity and sorting it gives the specified groups |
| Migration.BuildState | scripts/migrate_dynsec.py:239-306 | The loop over identities builds the specified clients, roles and groups |
| Migration.Migrate | scripts/migrate_dynsec.py:198-306 | Succeeds exactly when every input is acceptable, covers the others, and the base state has the administrator and its roles; then writes the specified state, and otherwise raises the error of the first input at fault |
| Migration.PreservedIff | scripts/migrate_dynsec.py:222-226 | Of the three names the last role of each is kept as it is, and no other role |
| MigrationIntegrity.PreservedRolesKept | scripts/migrate_dynsec.py:222-240 | These roles are in the migrated state with their rules |
| Migration.MigrationFaultIsUnique | scripts/migrate_dynsec.py:206-229 | The inputs determine the error |
| Migration.RoleIsCanonical | scripts/migrate_dynsec.py:245 | The rules of a migrated role do not depend on the order or repetition of the file's rules |
| Migration.SingleRole | scripts/migrate_dynsec.py:147-157 | With parsed priorities, a single role makes deny override allow |
| Migration.MigratedQuery | scripts/migrate_dynsec.py:242-267 | A migrated user has its own role, with its deduplicated rules, and no role through a group |
| Migration.MigrationPreservesMeaning | scripts/migrate_dynsec.py:242-306 | The permission check on the migrated state allows a request of a user other than `admin` exactly when some legacy rule for everyone or the user grants it and none denies it |
| LegacyMeaning.FileDecides | scripts/migrate_dynsec.py:131-306 | From text to decision: on the state migrated from a written file a request is allowed exactly when some line that concerns the user covers the type of access, admits the topic and is not `deny`, and no such line is `deny` |
| LegacyMeaning.RulesComeFromLines | scripts/migrate_dynsec.py:167-183 | A rule is one of the user's exactly when it comes from a line that is for everyone, stands before any user line, or in a section of the user |
| Migration.OtherRequestsAreDenied | scripts/migrate_dynsec.py:295-301 | Literal subscriptions and all other types that are never emitted fall to the default and are denied |
| Migration.OtherUsersRulesAreIrrelevant | scripts/migrate_dynsec.py:242-254 | The lines of other users never change a user's answer |
| Migration.AdminIgnoresLegacyRules | scripts/migrate_dynsec.py:215-245 | A legacy identity named `admin` is answered the same whatever the ACL file says |
| Migration.MeaningKeptIff | scripts/migrate_dynsec.py:215-245 | For all ACL files and requests, a user's meaning is kept exactly when the user is not named `admin` |
| MigrationIntegrity.OneClientEach | scripts/migrate_dynsec.py:216-267 | First the first `admin` of the base state, with its credential and its two roles, then one client for each identity, with its credential and the role `migrated-` and its name |
| MigrationIntegrity.ListsAreSorted | scripts/migrate_dynsec.py:242-281 | Clients and owner groups are written in the order of their names |
| MigrationIntegrity.GroupMembersSorted | scripts/migrate_dynsec.py:268-270 | The members of each group are written in the order of their names |
| MigrationIntegrity.UsernamesDistinctIff | scripts/migrate_dynsec.py:239-267 | Usernames are unique exactly when no identity is `admin` |
| MigrationIntegrity.OneMembershipEach | scripts/migrate_dynsec.py:268-293 | Each identity is listed once in all groups together, under its owner's group, and nobody else is |
| MigrationIntegrity.MembershipsTotal | scripts/migrate_dynsec.py:268-293 | Memberships total the number of identities |
| MigrationIntegrity.GroupNamesDistinctIff | scripts/migrate_dynsec.py:272-293 | Group names are unique exactly when no owner's group is `unauthenticated` |
| MigrationIntegrity.RolesResolve | scripts/migrate_dynsec.py:222-265 | Role names are unique and every assigned role exists |
| MigrationIntegrity.MembersResolve | scripts/migrate_dynsec.py:268-293 | Every group member is one of the clients |
| Json.SameCanonIff | admin-api/app/audit.py:72-74 | With sorted keys, two dictionaries are written alike exactly when they have the same keys with the same values |
| Json.TextOfObject | admin-api/app/audit.py:72-74 | An object is its keys and values with `:` and `,` in braces, without blanks |
| Json.TextOfArray | admin-api/app/audit.py:72-74 | A list is its values with `,` in brackets |
| Json.TextOfWords | admin-api/app/audit.py:72-74 | `null`, `true`, `false`, the empty forms, quotes around a string escaped character by character, a minus sign |
| Strings.DigitsOf | admin-api/app/audit.py:72-74 | Numbers are written in decimal notation |
| Json.EscapedIff | admin-api/app/audit.py:72-74 | Exactly the control characters, the quote and the backslash are escaped, as section 7 of RFC 8259 says |
| Json.LoadsDumps | admin-api/app/audit.py:86 | Round trip: parsing the compact sorted text gives the value, keys in order, for every JSON value |
| Json.DumpsAgain | admin-api/app/audit.py:86-117 | Parsing the stored text and writing it again reproduces it |
| Json.DumpsInjective | admin-api/app/audit.py:58-75 | Equal texts come from equal values only |
| Json.LoadsProper | admin-api/app/audit.py:111 | Whatever text is parsed, the result has each key once |
| Json.DictLookup | admin-api/app/audit.py:111 | Of repeated keys the last value counts |
| Redaction.RedactHidesExactlySecrets | admin-api/app/audit.py:24-32 | Two values redact alike exactly when they differ beneath sensitive keys at most, at any depth |
| Redaction.SensitiveIff | admin-api/app/audit.py:15-28 | A key is hidden exactly when one of the seven words stands in it, in small letters or capitals |
| Redaction.TextHidesExactlySecrets | admin-api/app/audit.py:57-86 | The stored text is the same exactly for values that, as dictionaries, differ beneath sensitive keys at most |
| Redaction.RedactIdempotent | admin-api/app/audit.py:24-32 | Redacting twice is redacting once |
| Redaction.RedactKeepsKeys | admin-api/app/audit.py:24-29 | Keys and their order stay; each value becomes `[REDACTED]` or is redacted |
| Redaction.RedactKeepsLength | admin-api/app/audit.py:30-31 | Lists keep their length, and each element is redacted where it stands |
| Audit.VerifyChain | admin-api/app/audit.py:96-122 | The loop reports the first row whose number, previous hash or hash is wrong, or the length and head of a chain without one |
| Audit.ReportIsUnique | admin-api/app/audit.py:96-122 | The log determines the report |
| Audit.CanonicalIsRecord | admin-api/app/audit.py:58-75 | The hashed text is that of the dictionary that holds each field under its name |
| Audit.OffsetDoesNotShow | admin-api/app/audit.py:18-21 | A clock reading with an offset is formatted as the UTC time it stands for, and one without as UTC |
| Audit.NewEventSays | admin-api/app/audit.py:53-89 | The appended row says who, what and when, holds the redacted metadata, and follows the last row, or 64 zeros |
| Audit.CanonicalDeterminesFields | admin-api/app/audit.py:58-75 | The canonical text is the same exactly when all eleven hashed fields are, metadata as JSON values and time as formatted |
| AuditChain.NewEventVerifies | admin-api/app/audit.py:53-89 | The hash recomputed from the stored metadata text and the stored time is the hash of the appended row |
| AuditChain.AppendKeepsChain | admin-api/app/audit.py:53-91 | Appending to a verifying log gives a verifying log |
| AuditChain.BuiltVerifies | admin-api/app/audit.py:35-122 | Every log that came about by appending verifies |
| AuditChain.SecretsLeaveNoTrace | admin-api/app/audit.py:57-88 | Two appends leave the same row, hash included, exactly when their metadata differ beneath sensitive keys at most |
| AuditChain.HeadBindsLog | admin-api/app/audit.py:96-122 | Without collisions, two non-empty logs that verify with the same head have the same length and agree on every covered field of every row |
| AuditChain.PrefixVerifies | admin-api/app/audit.py:96-122 | Every prefix of a verifying log verifies, with its own last hash as head |
| AuditChain.ChangedRowIsReported | admin-api/app/audit.py:118-120 | A row changed without its number and hash is reported at that row exactly when a covered field changed; otherwise the report stays |
| AuditChain.UnreadableRowRaises | admin-api/app/audit.py:111 | A row whose metadata text the parser of this model rejects makes verification raise; texts that only the original parses (fractions, exponents, surrogate escapes, `NaN` and infinities) are outside of the model and not meant |
| AuditChain.RehashedRowIsReported | admin-api/app/audit.py:118-121 | A changed row with its hash recomputed is reported at the next row, or, for the last row, shows in the head |
| AuditChain.DeletedRowIsReported | admin-api/app/audit.py:99-120 | Deleting a row that is not the last is reported at the row that follows it |
| AuditChain.AuditLog.Append | admin-api/app/audit.py:35-93 | One more row, linked to the last one, when the database commits it, and none otherwise; the log still verifies |
| AuditChain.AuditLog.Verify | admin-api/app/audit.py:96-122 | A log that was only appended to is reported valid with its length and head |
| AuditWriters.NextKeepsInv | admin-api/app/audit.py:47-93 | Each lock, read, insert, commit or abort of any writer keeps the committed table a verifying chain that only grows |
| AuditWriters.RunKeepsInv | admin-api/app/audit.py:47-93 | In every reachable state of any number of interleaved writers the table verifies, and each row says what a finished writer asked to record, and when |
| AuditWriters.OneRowPerFinishedWriter | admin-api/app/audit.py:90-93 | There are exactly as many rows as successful appends |
| AuditWriters.RowsOnlyGrow | admin-api/migrations/versions/0001_admin_foundation.py:55-67 | In every run of `append_event` steps and of UPDATE or DELETE statements, which the triggers refuse before anything changes, committed rows stay where they are |
| AuditWriters.StaleRowIsRefused | admin-api/app/models.py:49 | A row built on an outdated last row violates the unique sequence number |
| AuditWriters.CommitExtendsLast | admin-api/app/models.py:49 | So, without any lock, a commit extends the very row its writer read |
| AuditWriters.RunKeepsExclusive | admin-api/app/audit.py:50-53 | When all writers lock, one at a time is between lock and commit, and what it read stays the last row |
| AuditWriters.LockIsReleased | admin-api/app/audit.py:50-53 | In every run the lock is only ever held by a writer between lock and commit |
| AuditWriters.LockHoldersNeverCollide | admin-api/app/audit.py:50-91 | A lock holder's row never violates a unique column |
| RateLimiter.Limiter.constructor | admin-api/app/auth.py:52-53 | A new limiter holds no queue and has seen no call |
| RateLimiter.Limiter.DropOld | admin-api/app/auth.py:58-59 | The `popleft` loop leaves a suffix: everything dropped is at or before the cut, and the first entry kept is after it |
| RateLimiter.Limiter.Check | admin-api/app/auth.py:55-62 | Every queue stays the specified one of all calls so far, and the call is let through exactly as specified |
| RateLimiter.DecidesByCounting | admin-api/app/auth.py:55-62 | A call is let through exactly when, over the whole history, fewer accepted calls of the key than its limit are later than its time minus its window, as long as neither the clock nor the start of the window goes back for the key; limit and window may change |
| RateLimiter.RateBound | admin-api/app/auth.py:55-62 | Every half-open interval of `k` windows contains at most `k * limit` accepted calls of a key |
| RateLimiter.QueueIsBounded | admin-api/app/auth.py:60-62 | No queue ever holds more than `limit` entries |
| RateLimiter.KeysDoNotInterfere | admin-api/app/auth.py:53-57 | Queue and history of a key are those of its own calls alone |
| RateLimiter.RefusedLeaveNoTrace | admin-api/app/auth.py:60-62 | Under the same condition, leaving a refused call out of a run leaves the key the same history of accepted calls, so every later call is decided as before |
| BrokerMutation.Service.Mutate | admin-api/app/main.py:130-153 | Limiter, sent commands and log move together by the specified step; the response is, case by case, the answer, the error, the refusal of the limiter, or an exception |
| BrokerMutation.LogAlwaysVerifies | admin-api/app/main.py:107-153 | After every run of mutations and other requests the audit log verifies |
| BrokerMutation.OneEventPerMutation | admin-api/app/main.py:142-153 | The step behind the results on runs: one call sends a command exactly when the limiter, in the state before, lets it through, and leaves one event exactly when it is not lost; the event tells actor, target, time, result, and in its metadata the redacted state before and after, or the error |
| BrokerMutation.EventDetails | admin-api/app/main.py:142-153 | The stored metadata parse to `before` and, on success, `after`, the given one or else the answer, or, on failure, `error`; to nothing when the limiter refused |
| BrokerMutation.OneEventEach | admin-api/app/main.py:107-153 | Over every run, events and lost events add up to the mutations and recorded requests, so there is one event for each exactly when none was lost |
| BrokerMutation.CommandsAddUp | admin-api/app/main.py:142-153 | Over every run, the commands sent are as many as the rows that do not say `rate_limited`, but for the rows of other requests and the lost ones |
| BrokerMutation.RowsTellCommands | admin-api/app/main.py:142-153 | When nothing is lost and no other request records anything, those rows tell the commands sent, one by one and in order |
| BrokerMutation.MutationHasRow | admin-api/app/main.py:142-153 | In every run, whatever else is recorded, each mutation that is not lost has its row at a place that the actions before it determine, and the row tells who, what, when, the result and the states or the error |
| BrokerMutation.RowsDiffer | admin-api/app/main.py:142-153 | No two actions share a row, and rows are in the order of the actions |
| BrokerMutation.SentIsHistory | admin-api/app/main.py:142-147 | Commands are sent at exactly the times at which the limiter let a mutation through |
| BrokerMutation.SendRateIsBounded | admin-api/app/main.py:142-147 | At most `60 * k` commands are sent for one limiter key in any half-open `k` times 60 seconds of any run |
| BrokerMutation.ActorRateIsBounded | admin-api/app/main.py:142-147 | At most `60 * k` commands are sent for one actor at one address in any half-open `k` times 60 seconds of any run |
| BrokerMutation.SameKeyIff | admin-api/app/main.py:143 | Two actors share a limit exactly when subject, colon and address read the same; never when the subjects hold no colon and differ, or the addresses differ |
| Cutover.Host.WaitForHealth | scripts/migrate-dynsec.sh:66-74 | Polling succeeds exactly when one of the 36 polls finds the broker healthy |
| Cutover.Host.Install | mosquitto/scripts/install-dynsec-state.sh:13-25 | The live file becomes the source by the final rename or keeps its content, whatever fails |
| Cutover.Host.Rollback | scripts/rollback-dynsec.sh:22-56 | Succeeds exactly when the checkpoint matches its checksum and no command fails; the live file is then the saved one, and never anything else than that or what it was |
| Cutover.Host.Checkpoint | scripts/migrate-dynsec.sh:89-102 | Nothing live is touched; success leaves the original with its checksum |
| Cutover.Host.Harden | scripts/migrate-dynsec.sh:107-108 | The live state goes through the contents that the hardening commands make the broker write |
| Cutover.Host.CutOver | scripts/migrate-dynsec.sh:104-135 | Succeeds exactly when no command fails and the broker becomes healthy; the live file holds only complete states meanwhile |
| Cutover.Host.Migrate | scripts/migrate-dynsec.sh:76-138 | Status zero leaves the candidate live; a failure before the checkpoint touches nothing, one after it starts a rollback; then the original is live, or the rollback failed and the checkpoint is intact; or only the last message failed |
| Cutover.SuccessIsComplete | scripts/migrate-dynsec.sh:89-138 | Status zero means that no command failed at all, but those of a rollback and the copy of an ACL file that is not there |
| Cutover.RestoreIsComplete | scripts/rollback-dynsec.sh:22-56 | Likewise a rollback goes through only when none of its commands failed |

## Left out

- Python's `re` beyond what `topic_matches` writes: escaped characters, `[^/]+`, `.*`, the optional tail and the anchors. `str.isdigit` and `int` are read for ASCII digits, and `str.lower` as far as the ASCII key parts can tell.
- SHA-256 and `strftime` are functions that are not looked into; absence of collisions is a hypothesis where a lemma needs it. Strings stand for their UTF-8 bytes.
- AuditChain.UnreadableRowRaises: JSON numbers with fractions or exponents, `\u` surrogates, `NaN` and infinities are not modelled, so a row with such metadata counts as unreadable here; all else of the text format of RFC 8259 that the writer emits or the metadata reader accepts is there.
- A key missing from a dictionary is represented by the value the code falls back to (priority -1, empty name, no roles, not allowed); `str` and `int` conversions of other types are left out.
- The CSV reader, path handling and newline translation: `ParseOwners` starts at the header and stripped fields, the text methods at the decoded text. Titles and descriptions, `disabled` and `allowwildcardsubs` are constants or echoes and are not in the state.
- Policy.EvaluatePermission: nested loops are split into helper methods, one for each loop that appends or searches.
- Migration.MigrationPreservesMeaning: the client is looked up as the first one of its name, as the list is written; how the broker treats two clients named `admin` is not part of this model. Mosquitto's own evaluation of the state is not either: meaning is that of `evaluate_permission`.
- RateLimiter.Limiter.Check: times are reals, so float rounding is not there, and a call is one step, so threads inside `check` do not interleave.
- Subscriptions.DeliveryIsCoveredIff: topic names with a newline, shared subscriptions, and the length limit of topic names are left out.
- RateLimiter.RateBound: assumes a clock that does not go back for the key and one rule for it, as all callers use.
- AuditWriters.RunKeepsInv: PostgreSQL and SQLite appear as an advisory lock, reading the greatest number, unique columns, and triggers that refuse to update or delete rows.
- Cutover.Host.Migrate: signals, power loss and file modes are left out. What the broker writes in answer to a hardening command is arbitrary. The failures of `sleep`, of finding the container, and of the messages before the checkpoint are not told apart from those of the command beside them.
- MQTT and TLS plumbing, web routes, sessions, OIDC, password hashing, role comparison, the user interface, backup and certificate scripts: network, library calls, configuration, or facts of one branch.
