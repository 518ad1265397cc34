/** The expressions that `topic_matches` writes: their text, what Python's `re` reads
    in it, and that they accept what a level-by-level matcher does. */
module TopicRegex {
  import opened Results
  import opened Sequences
  import opened Strings

  /** One piece of an expression between the anchors. */
  datatype Item =
    | Lit(c: char)   // an escaped or plain character
    | NotSlashes     // [^/]+
    | Anything       // .*
    | OptionalTail   // (?:/.*)?

  // ----- text

  /** The characters `re.escape` puts a backslash in front of. */
  predicate IsSpecial(c: char) {
    || '(' <= c <= '+' || c == '-' || c == '.' || c == '?'
    || '[' <= c <= '^' || '{' <= c <= '~'
    || c == '$' || c == '&' || c == '#' || c == ' '
    || '\U{0009}' <= c <= '\U{000D}'
  }

  /** They are those that mean something in an expression, and blanks. */
  lemma {:induction false} SpecialIff(c: char)
    ensures IsSpecial(c) <==> c in "()[]{}?*+-|^$\\.&~# \t\n\r" || c == '\U{0b}' || c == '\U{0c}'
  {
  }

  function Escape(s: string): string {
    if s == "" then ""
    else (if IsSpecial(s[0]) then ['\\', s[0]] else [s[0]]) + Escape(s[1..])
  }

  function LevelText(level: string): string {
    if level == "#" then ".*" else if level == "+" then "[^/]+" else Escape(level)
  }

  function LevelTexts(levels: seq<string>): seq<string> {
    if levels == [] then [] else [LevelText(levels[0])] + LevelTexts(levels[1..])
  }

  function ItemText(item: Item): string {
    match item
    case Lit(c) => if IsSpecial(c) then ['\\', c] else [c]
    case NotSlashes => "[^/]+"
    case Anything => ".*"
    case OptionalTail => "(?:/.*)?"
  }

  function Text(items: seq<Item>): string {
    FlatMap(ItemText, items)
  }

  // ----- reading an expression, as `re` does for the constructs above

  /** The items of `body$`; `None` for text outside the constructs above. */
  function ReadItems(s: string): Option<seq<Item>>
    decreases |s|
  {
    if s == "$" then Some([])
    else if s == "" then None
    else match s[0]
      case '\\' =>
        if |s| >= 2 && IsSpecial(s[1]) then Prepend(Lit(s[1]), ReadItems(s[2..])) else None
      case '[' => if "[^/]+" <= s then Prepend(NotSlashes, ReadItems(s[5..])) else None
      case '.' => if ".*" <= s then Prepend(Anything, ReadItems(s[2..])) else None
      case '(' => if "(?:/.*)?" <= s then Prepend(OptionalTail, ReadItems(s[8..])) else None
      case _ => if IsSpecial(s[0]) then None else Prepend(Lit(s[0]), ReadItems(s[1..]))
  }

  function Prepend(item: Item, rest: Option<seq<Item>>): Option<seq<Item>> {
    match rest
    case None => None
    case Some(items) => Some([item] + items)
  }

  function Read(expression: string): Option<seq<Item>> {
    if "^" <= expression then ReadItems(expression[1..]) else None
  }

  // ----- the strings an expression accepts

  predicate NoNewline(s: string) {
    '\n' !in s
  }

  /** What one item matches on its own. */
  predicate ItemMatches(item: Item, s: string) {
    match item
    case Lit(c) => s == [c]
    case NotSlashes => s != "" && '/' !in s
    case Anything => NoNewline(s)
    case OptionalTail => s == "" || (s[0] == '/' && NoNewline(s))
  }

  /** The items match all of `s` one after the other; a `lenient` end also stands
      before one final newline, as Python's `$` does. */
  predicate Accepts(items: seq<Item>, s: string, lenient: bool)
    decreases |items|
  {
    if items == [] then s == "" || (lenient && s == "\n")
    else exists k :: 0 <= k <= |s| && ItemMatches(items[0], s[..k]) && Accepts(items[1..], s[k..], lenient)
  }

  /** `re.match(expression, s) is not None`. */
  predicate ReMatch(expression: string, s: string) {
    var items := Read(expression);
    items.Some? && Accepts(items.value, s, true)
  }

  // ----- what the code writes

  /** The joined level expressions between `^` and `$`, and the rewriting of a
      final level `#` into an optional tail. */
  function Expression(pattern: string): string {
    var written := "^" + Join(LevelTexts(Split(pattern, '/')), '/') + "$";
    if |pattern| >= 2 && pattern[|pattern| - 2..] == "/#"
    then Replace(written, "/.*$", "(?:/.*)?$")
    else written
  }

  // ----- the reference: matching level by level

  predicate LevelMatches(filter: string, level: string) {
    if filter == "+" then level != "" else filter == level
  }

  /** A final `#` stands for any number of levels, one elsewhere for at least one;
      no newline is crossed, because `.` does not match it. */
  predicate LevelsMatch(filters: seq<string>, levels: seq<string>) {
    if filters == [] then levels == []
    else if filters == ["#"] then AllNoNewline(levels)
    else if filters[0] == "#" then
      exists k :: 1 <= k <= |levels| && AllNoNewline(levels[..k]) && LevelsMatch(filters[1..], levels[k..])
    else
      levels != [] && LevelMatches(filters[0], levels[0]) && LevelsMatch(filters[1..], levels[1..])
  }

  predicate AllNoNewline(levels: seq<string>) {
    forall i :: 0 <= i < |levels| ==> NoNewline(levels[i])
  }

  // ----- the items the written text stands for

  function Lits(s: string): seq<Item> {
    if s == "" then [] else [Lit(s[0])] + Lits(s[1..])
  }

  function LevelItems(level: string): seq<Item> {
    if level == "#" then [Anything] else if level == "+" then [NotSlashes] else Lits(level)
  }

  /** The items for the levels that follow a first one, after the rewriting. */
  function Rest(levels: seq<string>): seq<Item> {
    if levels == [] then []
    else if levels == ["#"] then [OptionalTail]
    else [Lit('/')] + LevelItems(levels[0]) + Rest(levels[1..])
  }

  /** The same without the rewriting. */
  function PlainRest(levels: seq<string>): seq<Item> {
    if levels == [] then []
    else [Lit('/')] + LevelItems(levels[0]) + PlainRest(levels[1..])
  }

  function Compiled(levels: seq<string>): seq<Item>
    requires |levels| >= 1
  {
    LevelItems(levels[0]) + Rest(levels[1..])
  }

  // ----- the text denotes those items

  lemma {:induction false} TextConcat(a: seq<Item>, b: seq<Item>)
    ensures Text(a + b) == Text(a) + Text(b)
  {
    FlatMapConcat(ItemText, a, b);
  }

  lemma {:induction false} TextCons(item: Item, items: seq<Item>)
    ensures Text([item] + items) == ItemText(item) + Text(items)
  {
    assert ([item] + items)[1..] == items;
  }

  lemma {:induction false} EscapeText(s: string)
    ensures Text(Lits(s)) == Escape(s)
  {
    if s != "" {
      EscapeText(s[1..]);
      assert Lits(s)[1..] == Lits(s[1..]);
    }
  }

  lemma {:induction false} LevelItemsText(level: string)
    ensures Text(LevelItems(level)) == LevelText(level)
  {
    EscapeText(level);
    assert Text([Anything]) == ".*" + Text([]);
    assert Text([NotSlashes]) == "[^/]+" + Text([]);
  }

  lemma {:induction false} PlainRestText(tail: seq<string>)
    requires tail != []
    ensures Text(PlainRest(tail)) == ['/'] + (LevelText(tail[0]) + Text(PlainRest(tail[1..])))
  {
    var inner := LevelItems(tail[0]) + PlainRest(tail[1..]);
    assert PlainRest(tail) == [Lit('/')] + inner;
    TextCons(Lit('/'), inner);
    TextConcat(LevelItems(tail[0]), PlainRest(tail[1..]));
    LevelItemsText(tail[0]);
  }

  lemma {:induction false} JoinedText(levels: seq<string>)
    requires |levels| >= 1
    ensures Join(LevelTexts(levels), '/') == LevelText(levels[0]) + Text(PlainRest(levels[1..]))
  {
    if |levels| == 1 {
      assert LevelTexts(levels) == [LevelText(levels[0])];
    } else {
      JoinedText(levels[1..]);
      PlainRestText(levels[1..]);
      LevelTextsCons(levels);
      JoinCons(LevelTexts(levels), '/');
    }
  }

  lemma {:induction false} PlainText(levels: seq<string>)
    requires |levels| >= 1
    ensures Join(LevelTexts(levels), '/') == Text(LevelItems(levels[0]) + PlainRest(levels[1..]))
  {
    JoinedText(levels);
    LevelItemsText(levels[0]);
    TextConcat(LevelItems(levels[0]), PlainRest(levels[1..]));
  }

  lemma {:induction false} LevelTextsCons(levels: seq<string>)
    requires |levels| > 1
    ensures |LevelTexts(levels)| > 1 && LevelTexts(levels)[0] == LevelText(levels[0])
    ensures LevelTexts(levels)[1..] == LevelTexts(levels[1..])
  {
    assert levels[1..] != [];
  }

  lemma {:induction false} ReadItem(item: Item, rest: string)
    requires rest != ""
    ensures ReadItems(ItemText(item) + rest) == Prepend(item, ReadItems(rest))
  {
    var s := ItemText(item) + rest;
    assert s[|ItemText(item)|..] == rest;
    assert s[0] == ItemText(item)[0];
    assert |s| >= 2;
    match item
    case Lit(c) =>
    case NotSlashes => assert "[^/]+" <= s;
    case Anything => assert ".*" <= s;
    case OptionalTail => assert "(?:/.*)?" <= s;
  }

  /** Reading gives back exactly the items that were written. */
  lemma {:induction false} ReadText(items: seq<Item>)
    ensures ReadItems(Text(items) + "$") == Some(items)
  {
    if items != [] {
      ReadText(items[1..]);
      ReadItem(items[0], Text(items[1..]) + "$");
      assert Text(items) + "$" == ItemText(items[0]) + (Text(items[1..]) + "$");
      assert items == [items[0]] + items[1..];
    }
  }

  /** In written items a `$` always follows a backslash. */
  lemma {:induction false} DollarIsEscaped(items: seq<Item>, k: nat)
    requires k < |Text(items)| && Text(items)[k] == '$'
    ensures k > 0 && Text(items)[k - 1] == '\\'
  {
    var first := ItemText(items[0]);
    if k >= |first| {
      DollarIsEscaped(items[1..], k - |first|);
    }
  }

  /** So replacing `/.*$` touches the end of the expression and nothing else. */
  lemma {:induction false} RewriteTouchesOnlyTheTail(items: seq<Item>)
    ensures Replace("^" + Text(items) + "/.*$", "/.*$", "(?:/.*)?$") == "^" + Text(items) + "(?:/.*)?$"
  {
    var a, b := "^" + Text(items), "/.*$";
    forall i | 0 <= i < |a| ensures !("/.*$" <= (a + b)[i..]) {
      if "/.*$" <= (a + b)[i..] {
        assert (a + b)[i..][3] == '$' && (a + b)[i..][2] == '*';
        assert (a + b)[i + 3] == '$' && (a + b)[i + 2] == '*';
        if i + 3 < |a| {
          DollarIsEscaped(items, i + 2);
        }
      }
    }
    ReplaceSkips(a, b, "/.*$", "(?:/.*)?$");
    assert b[4..] == "";
    assert Replace(b, "/.*$", "(?:/.*)?$") == "(?:/.*)?$" + Replace("", "/.*$", "(?:/.*)?$");
  }

  /** Peels a final `#` off the levels that follow the first one. */
  lemma {:induction false} RestEndsInTail(levels: seq<string>)
    requires |levels| >= 1 && levels[|levels| - 1] == "#"
    ensures var front := PlainRest(levels[..|levels| - 1]);
            Rest(levels) == front + [OptionalTail] && PlainRest(levels) == front + [Lit('/'), Anything]
  {
    if |levels| > 1 {
      var front, rest := levels[..|levels| - 1], levels[1..];
      var more := PlainRest(rest[..|rest| - 1]);
      RestEndsInTail(rest);
      assert front[1..] == rest[..|rest| - 1];
      Regroup([Lit('/')] + LevelItems(levels[0]), more, [OptionalTail]);
      Regroup([Lit('/')] + LevelItems(levels[0]), more, [Lit('/'), Anything]);
    } else {
      assert levels == ["#"];
    }
  }

  lemma {:induction false} RestWithoutTail(levels: seq<string>)
    requires levels != [] ==> levels[|levels| - 1] != "#"
    ensures Rest(levels) == PlainRest(levels)
  {
    if levels != [] { RestWithoutTail(levels[1..]); }
  }

  lemma {:induction false} EndsInHash(pattern: string)
    ensures var levels := Split(pattern, '/');
            (|pattern| >= 2 && pattern[|pattern| - 2..] == "/#")
            <==> (|levels| >= 2 && levels[|levels| - 1] == "#")
  {
    var levels := Split(pattern, '/');
    if |pattern| >= 2 && pattern[|pattern| - 2..] == "/#" {
      var front := pattern[..|pattern| - 2];
      assert pattern == front + ['/'] + "#";
      SplitConcat(front, "#", '/');
      SplitWithoutSep("#", '/');
    }
    if |levels| >= 2 && levels[|levels| - 1] == "#" {
      JoinSplit(pattern, '/');
      JoinConcat(levels[..|levels| - 1], ["#"], '/');
      assert levels == levels[..|levels| - 1] + ["#"];
    }
  }

  lemma {:induction false} TextOfTail(front: seq<Item>)
    ensures Text(front + [Lit('/'), Anything]) == Text(front) + "/.*"
    ensures Text(front + [OptionalTail]) == Text(front) + "(?:/.*)?"
  {
    TextConcat(front, [Lit('/'), Anything]);
    TextConcat(front, [OptionalTail]);
    assert [Lit('/'), Anything][1..] == [Anything];
    assert Text([Lit('/'), Anything]) == "/" + Text([Anything]);
    assert Text([Anything]) == ".*" + Text([]);
    assert Text([OptionalTail]) == "(?:/.*)?" + Text([]);
  }

  lemma {:induction false} RewriteOfItems(front: seq<Item>)
    ensures Replace("^" + Text(front + [Lit('/'), Anything]) + "$", "/.*$", "(?:/.*)?$")
            == "^" + Text(front + [OptionalTail]) + "$"
  {
    TextOfTail(front);
    RewriteTouchesOnlyTheTail(front);
    Regroup4("^", Text(front), "/.*", "$");
    Regroup4("^", Text(front), "(?:/.*)?", "$");
    assert "/.*" + "$" == "/.*$";
    assert "(?:/.*)?" + "$" == "(?:/.*)?$";
  }

  lemma {:induction false} Regroup4(a: string, b: string, c: string, d: string)
    ensures a + (b + c) + d == a + b + (c + d)
  {
  }

  /** Items before a final `#`: what is written, and what it is rewritten to. */
  lemma {:induction false} FrontItems(levels: seq<string>) returns (front: seq<Item>)
    requires |levels| >= 2 && levels[|levels| - 1] == "#"
    ensures Join(LevelTexts(levels), '/') == Text(front + [Lit('/'), Anything])
    ensures Compiled(levels) == front + [OptionalTail]
  {
    var first, tail := LevelItems(levels[0]), levels[1..];
    var rest := PlainRest(tail[..|tail| - 1]);
    front := first + rest;
    PlainText(levels);
    RestEndsInTail(tail);
    Regroup(first, rest, [Lit('/'), Anything]);
    Regroup(first, rest, [OptionalTail]);
  }

  /** With a final `#`, the rewritten text is that of the compiled items. */
  lemma {:induction false} TailIsRewritten(levels: seq<string>)
    requires |levels| >= 2 && levels[|levels| - 1] == "#"
    ensures Replace("^" + Join(LevelTexts(levels), '/') + "$", "/.*$", "(?:/.*)?$")
            == "^" + Text(Compiled(levels)) + "$"
  {
    var front := FrontItems(levels);
    RewriteOfItems(front);
  }

  /** Without one, nothing is rewritten. */
  lemma {:induction false} PlainIsKept(levels: seq<string>)
    requires levels != [] && (|levels| == 1 || levels[|levels| - 1] != "#")
    ensures "^" + Join(LevelTexts(levels), '/') + "$" == "^" + Text(Compiled(levels)) + "$"
  {
    PlainText(levels);
    assert |levels| > 1 ==> levels[1..][|levels| - 2] == levels[|levels| - 1];
    RestWithoutTail(levels[1..]);
  }

  lemma {:induction false} ExpressionText(pattern: string)
    ensures Expression(pattern) == "^" + Text(Compiled(Split(pattern, '/'))) + "$"
  {
    EndsInHash(pattern);
    ExpressionOfLevels(pattern, Split(pattern, '/'));
  }

  lemma {:induction false} ExpressionOfLevels(pattern: string, levels: seq<string>)
    requires levels != [] && levels == Split(pattern, '/')
    requires (|pattern| >= 2 && pattern[|pattern| - 2..] == "/#")
             <==> (|levels| >= 2 && levels[|levels| - 1] == "#")
    ensures Expression(pattern) == "^" + Text(Compiled(levels)) + "$"
  {
    if |levels| >= 2 && levels[|levels| - 1] == "#" {
      TailIsRewritten(levels);
    } else {
      PlainIsKept(levels);
    }
  }

  /** Filters of one wildcard, written out; a special character is written behind a backslash. */
  lemma {:induction false} WrittenTexts(c: char)
    ensures Expression("+") == "^[^/]+$" && Expression("#") == "^.*$"
    ensures Escape([c]) == if IsSpecial(c) then "\\" + [c] else [c]
  {
    SplitWithoutSep("+", '/');
    SplitWithoutSep("#", '/');
    assert Join(LevelTexts(["+"]), '/') == "[^/]+" && Join(LevelTexts(["#"]), '/') == ".*";
    assert [c][1..] == "";
  }

  /** A final `#` behind a slash is written as an optional group that takes the slash in. */
  lemma {:induction false} WrittenTail()
    ensures Expression("/#") == "^(?:/.*)?$"
  {
    ExpressionText("/#");
    SplitWithoutSep("", '/');
    SplitWithoutSep("#", '/');
    SplitConcat("", "#", '/');
    assert "" + "/" + "#" == "/#" && ["", "#"][1..] == ["#"];
    assert Compiled(["", "#"]) == [OptionalTail];
    assert Text([OptionalTail]) == "(?:/.*)?" by { assert [OptionalTail][1..] == []; }
  }

  /** The written text reads back as the compiled items, for every filter. */
  lemma {:induction false} ExpressionDenotes(pattern: string)
    ensures Read(Expression(pattern)) == Some(Compiled(Split(pattern, '/')))
  {
    var items := Compiled(Split(pattern, '/'));
    ExpressionText(pattern);
    ReadText(items);
    assert "^" + Text(items) + "$" == "^" + (Text(items) + "$");
    assert Expression(pattern)[1..] == Text(items) + "$";
  }

  // ----- what the items accept

  predicate EndsInNewline(s: string) {
    s != "" && s[|s| - 1] == '\n'
  }

  predicate AcceptsOrNewline(items: seq<Item>, s: string) {
    Accepts(items, s, false) || (EndsInNewline(s) && Accepts(items, s[..|s| - 1], false))
  }

  /** The first item takes `s[..k]` and the others the rest. */
  predicate Parts(items: seq<Item>, s: string, lenient: bool, k: int)
    requires items != []
  {
    0 <= k <= |s| && ItemMatches(items[0], s[..k]) && Accepts(items[1..], s[k..], lenient)
  }

  lemma {:induction false} FirstPart(items: seq<Item>, s: string, lenient: bool)
    requires items != [] && Accepts(items, s, lenient)
    ensures exists k :: Parts(items, s, lenient, k)
  {
    var k :| 0 <= k <= |s| && ItemMatches(items[0], s[..k]) && Accepts(items[1..], s[k..], lenient);
    assert Parts(items, s, lenient, k);
  }

  lemma {:induction false} StrictIsLenient(items: seq<Item>, s: string)
    requires AcceptsOrNewline(items, s)
    ensures Accepts(items, s, true)
    decreases |items|
  {
    if items == [] {
      if EndsInNewline(s) { assert s == s[..|s| - 1] + "\n"; }
    } else if Accepts(items, s, false) {
      FirstPart(items, s, false);
      var k :| Parts(items, s, false, k);
      StrictIsLenient(items[1..], s[k..]);
      assert Parts(items, s, true, k);
    } else {
      var front := s[..|s| - 1];
      FirstPart(items, front, false);
      var k :| Parts(items, front, false, k);
      assert front[..k] == s[..k] && s[k..][..|s| - k - 1] == front[k..];
      StrictIsLenient(items[1..], s[k..]);
      assert Parts(items, s, true, k);
    }
  }

  /** The first item and what follows it, with the last character taken off. */
  lemma {:induction false} PartBeforeLast(items: seq<Item>, s: string, k: int)
    requires items != [] && Parts(items, s, true, k) && EndsInNewline(s[k..])
    requires Accepts(items[1..], s[k..][..|s| - k - 1], false)
    ensures EndsInNewline(s) && Parts(items, s[..|s| - 1], false, k)
  {
    var front := s[..|s| - 1];
    assert front[..k] == s[..k] && s[k..][..|s| - k - 1] == front[k..];
  }

  lemma {:induction false} LenientIsStrict(items: seq<Item>, s: string)
    requires Accepts(items, s, true)
    ensures AcceptsOrNewline(items, s)
    decreases |items|
  {
    if items != [] {
      FirstPart(items, s, true);
      var k :| Parts(items, s, true, k);
      LenientIsStrict(items[1..], s[k..]);
      if Accepts(items[1..], s[k..], false) {
        assert Parts(items, s, false, k);
      } else {
        PartBeforeLast(items, s, k);
        assert Parts(items, s[..|s| - 1], false, k);
      }
    }
  }

  /** Python's `$` adds exactly the strings with one more newline at the end. */
  lemma {:induction false} DollarAllowsNewline(items: seq<Item>, s: string)
    ensures Accepts(items, s, true) <==> AcceptsOrNewline(items, s)
  {
    if Accepts(items, s, true) { LenientIsStrict(items, s); }
    if AcceptsOrNewline(items, s) { StrictIsLenient(items, s); }
  }

  /** What follows the first level: nothing, or a slash and further levels. */
  predicate AtBoundary(s: string) {
    s == "" || s[0] == '/'
  }

  function LevelsAfter(s: string): seq<string> {
    if s == "" then [] else Split(s[1..], '/')
  }

  lemma {:induction false} SplitAtBoundary(s: string, k: nat)
    requires k <= |s| && AtBoundary(s[k..])
    ensures Split(s, '/') == Split(s[..k], '/') + LevelsAfter(s[k..])
  {
    if k == |s| {
      assert s[..k] == s;
    } else {
      SplitConcat(s[..k], s[k..][1..], '/');
      assert s == s[..k] + ['/'] + s[k..][1..];
    }
  }

  /** At `k`, after its first `j` levels, the text is cut at a boundary. */
  predicate CutAt(s: string, j: int, k: int) {
    && 1 <= j <= |Split(s, '/')| && 0 <= k <= |s| && AtBoundary(s[k..])
    && Split(s[..k], '/') == Split(s, '/')[..j] && LevelsAfter(s[k..]) == Split(s, '/')[j..]
  }

  lemma {:induction false} JoinedFront(levels: seq<string>, j: nat)
    requires 1 <= j <= |levels|
    ensures var front, all := Join(levels[..j], '/'), Join(levels, '/');
            front <= all && AtBoundary(all[|front|..])
  {
    if j == |levels| {
      assert levels[..j] == levels;
    } else {
      JoinConcat(levels[..j], levels[j..], '/');
      assert levels == levels[..j] + levels[j..];
    }
  }

  lemma {:induction false} CutFrom(s: string, j: nat, k: nat)
    requires 1 <= j <= |Split(s, '/')| && k <= |s| && AtBoundary(s[k..])
    requires Split(s[..k], '/') == Split(s, '/')[..j]
    ensures CutAt(s, j, k)
  {
    SplitAtBoundary(s, k);
    var front, after := Split(s[..k], '/'), LevelsAfter(s[k..]);
    assert (front + after)[|front|..] == after;
  }

  /** Every way to cut the levels in two is a cut of the text at a boundary. */
  lemma {:induction false} CutOfLevels(s: string, j: nat)
    requires 1 <= j <= |Split(s, '/')|
    ensures exists k :: CutAt(s, j, k)
  {
    var levels := Split(s, '/');
    var k := |Join(levels[..j], '/')|;
    JoinSplit(s, '/');
    JoinedFront(levels, j);
    SplitParts(s, '/');
    SplitJoin(levels[..j], '/');
    assert s[..k] == Join(levels[..j], '/');
    CutFrom(s, j, k);
  }

  lemma {:induction false} NoNewlineInLevels(s: string)
    ensures NoNewline(s) <==> AllNoNewline(Split(s, '/'))
  {
    SplitKeepsChars(s, '/', '\n');
  }

  lemma {:induction false} LitsAccept(l: string, rest: seq<Item>, s: string)
    ensures Accepts(Lits(l) + rest, s, false) <==> l <= s && Accepts(rest, s[|l|..], false)
  {
    if l == "" {
      assert Lits(l) + rest == rest && s[0..] == s;
    } else {
      assert Lits(l) + rest == [Lit(l[0])] + (Lits(l[1..]) + rest);
      LitAccepts(l[0], Lits(l[1..]) + rest, s);
      if s != "" {
        LitsAccept(l[1..], rest, s[1..]);
        PrefixCons(l, s);
      }
    }
  }

  lemma {:induction false} PrefixCons(l: string, s: string)
    requires l != "" && s != ""
    ensures l <= s <==> s[0] == l[0] && l[1..] <= s[1..]
    ensures l <= s ==> s[1..][|l| - 1..] == s[|l|..]
  {
    assert l == [l[0]] + l[1..] && s == [s[0]] + s[1..];
  }

  lemma {:induction false} LitAccepts(c: char, rest: seq<Item>, s: string)
    ensures Accepts([Lit(c)] + rest, s, false) <==> s != "" && s[0] == c && Accepts(rest, s[1..], false)
  {
    var items := [Lit(c)] + rest;
    assert items[0] == Lit(c) && items[1..] == rest;
    assert s != "" ==> s[..1] == [s[0]];
    forall k | 0 <= k <= |s| && ItemMatches(Lit(c), s[..k]) ensures k == 1 && s[0] == c {
      assert |s[..k]| == 1 && s[..k][0] == s[0];
    }
  }

  ghost predicate RestFits(levels: seq<string>, s: string) {
    Accepts(Rest(levels), s, false) <==> AtBoundary(s) && LevelsMatch(levels, LevelsAfter(s))
  }

  ghost predicate SuffixesFit(levels: seq<string>, s: string) {
    forall k :: 0 <= k <= |s| ==> RestFits(levels, s[k..])
  }

  lemma {:induction false} TailAccepts(s: string)
    ensures RestFits(["#"], s)
  {
    assert Rest(["#"])[1..] == [];
    assert s[..|s|] == s;
    if s != "" && s[0] == '/' {
      NoNewlineInLevels(s[1..]);
      assert s == ['/'] + s[1..];
    }
  }

  /** What follows a compiled first level accepts exactly the further levels. */
  lemma {:induction false} RestAccepts(levels: seq<string>, s: string)
    requires forall i :: 0 <= i < |levels| ==> '/' !in levels[i]
    ensures RestFits(levels, s)
    decreases |levels|, 1
  {
    if levels == ["#"] {
      TailAccepts(s);
    } else if levels != [] {
      LitAccepts('/', Compiled(levels), s);
      assert Rest(levels) == [Lit('/')] + Compiled(levels);
      if s != "" { CompiledAccepts(levels, s[1..]); }
    }
  }

  lemma {:induction false} SuffixesAccept(levels: seq<string>, s: string)
    requires forall i :: 0 <= i < |levels| ==> '/' !in levels[i]
    ensures SuffixesFit(levels, s)
    decreases |levels|, 2
  {
    forall k | 0 <= k <= |s| ensures RestFits(levels, s[k..]) {
      RestAccepts(levels, s[k..]);
    }
  }

  /** The compiled items accept exactly what the levels match, for every filter. */
  lemma {:induction false} CompiledAccepts(levels: seq<string>, s: string)
    requires |levels| >= 1
    requires forall i :: 0 <= i < |levels| ==> '/' !in levels[i]
    ensures Accepts(Compiled(levels), s, false) <==> LevelsMatch(levels, Split(s, '/'))
    decreases |levels|, 0
  {
    var first, tail := levels[0], levels[1..];
    assert levels == [first] + tail;
    SuffixesAccept(tail, s);
    if first == "#" {
      HashAccepts(tail, s);
    } else if first == "+" {
      PlusAccepts(tail, s);
    } else {
      LiteralAccepts(first, tail, s);
    }
  }

  /** A slash-free prefix ends at a boundary. */
  predicate FirstEnds(s: string, k: int) {
    0 <= k <= |s| && AtBoundary(s[k..]) && '/' !in s[..k]
  }

  /** Such a prefix is the first level. */
  lemma {:induction false} FirstLevel(s: string, k: nat)
    requires FirstEnds(s, k)
    ensures Split(s, '/') == [s[..k]] + LevelsAfter(s[k..])
  {
    SplitAtBoundary(s, k);
    SplitWithoutSep(s[..k], '/');
  }

  lemma {:induction false} FirstLevelExists(s: string)
    ensures exists k :: FirstEnds(s, k)
  {
    CutOfLevels(s, 1);
    var k :| CutAt(s, 1, k);
    JoinSplit(s[..k], '/');
    SplitParts(s, '/');
    assert FirstEnds(s, k);
  }

  lemma {:induction false} LiteralAccepts(first: string, tail: seq<string>, s: string)
    requires first != "#" && first != "+" && '/' !in first
    requires SuffixesFit(tail, s)
    ensures Accepts(Lits(first) + Rest(tail), s, false) <==> LevelsMatch([first] + tail, Split(s, '/'))
  {
    LitsAccept(first, Rest(tail), s);
    if first <= s && AtBoundary(s[|first|..]) {
      FirstLevel(s, |first|);
    }
    FirstLevelExists(s);
    var k :| FirstEnds(s, k);
    FirstLevel(s, k);
    if s[..k] == first {
      assert RestFits(tail, s[k..]);
    }
    LevelsMatchCons(first, tail, s[..k], LevelsAfter(s[k..]));
  }

  lemma {:induction false} LevelsMatchCons(filter: string, filters: seq<string>, level: string, levels: seq<string>)
    requires filter != "#"
    ensures LevelsMatch([filter] + filters, [level] + levels)
            <==> LevelMatches(filter, level) && LevelsMatch(filters, levels)
  {
    assert ([filter] + filters)[1..] == filters && ([level] + levels)[1..] == levels;
  }

  lemma {:induction false} PlusAccepts(tail: seq<string>, s: string)
    requires SuffixesFit(tail, s)
    ensures Accepts([NotSlashes] + Rest(tail), s, false) <==> LevelsMatch(["+"] + tail, Split(s, '/'))
  {
    var items := [NotSlashes] + Rest(tail);
    assert items[1..] == Rest(tail);
    if Accepts(items, s, false) {
      FirstPart(items, s, false);
      var j :| Parts(items, s, false, j);
      PlusReads(tail, s, j);
    }
    FirstLevelExists(s);
    var k :| FirstEnds(s, k);
    FirstLevel(s, k);
    LevelsMatchCons("+", tail, s[..k], LevelsAfter(s[k..]));
    if LevelsMatch(["+"] + tail, Split(s, '/')) {
      assert RestFits(tail, s[k..]);
      assert Parts(items, s, false, k);
    }
  }

  lemma {:induction false} PlusReads(tail: seq<string>, s: string, j: nat)
    requires SuffixesFit(tail, s) && j <= |s| && ItemMatches(NotSlashes, s[..j]) && Accepts(Rest(tail), s[j..], false)
    ensures LevelsMatch(["+"] + tail, Split(s, '/'))
  {
    assert RestFits(tail, s[j..]);
    FirstLevel(s, j);
    LevelsMatchCons("+", tail, s[..j], LevelsAfter(s[j..]));
  }

  lemma {:induction false} HashAccepts(tail: seq<string>, s: string)
    requires SuffixesFit(tail, s)
    ensures Accepts([Anything] + Rest(tail), s, false) <==> LevelsMatch(["#"] + tail, Split(s, '/'))
  {
    if tail == [] {
      NoNewlineInLevels(s);
      assert s[..|s|] == s;
    } else {
      if Accepts([Anything] + Rest(tail), s, false) {
        FirstPart([Anything] + Rest(tail), s, false);
        var k :| Parts([Anything] + Rest(tail), s, false, k);
        assert ([Anything] + Rest(tail))[1..] == Rest(tail);
        HashReadsLevels(tail, s, k);
      }
      if LevelsMatch(["#"] + tail, Split(s, '/')) {
        HashStops(tail, Split(s, '/'));
        var levels := Split(s, '/');
        var j: nat :| StopsAt(tail, levels, j);
        LevelsStopHash(tail, s, j);
      }
    }
  }

  /** A `#` takes the first `j` levels and the other filters the rest. */
  predicate StopsAt(tail: seq<string>, levels: seq<string>, j: int) {
    1 <= j <= |levels| && AllNoNewline(levels[..j]) && LevelsMatch(tail, levels[j..])
  }

  lemma {:induction false} HashStops(tail: seq<string>, levels: seq<string>)
    requires tail != [] && LevelsMatch(["#"] + tail, levels)
    ensures exists j :: StopsAt(tail, levels, j)
  {
    var filters := ["#"] + tail;
    assert |filters| > 1 && filters[1..] == tail;
    var j :| 1 <= j <= |levels| && AllNoNewline(levels[..j]) && LevelsMatch(filters[1..], levels[j..]);
    assert StopsAt(tail, levels, j);
  }

  /** Where `.*` may stop, some number of levels ends. */
  lemma {:induction false} HashReadsLevels(tail: seq<string>, s: string, k: nat)
    requires tail != [] && SuffixesFit(tail, s)
    requires k <= |s| && NoNewline(s[..k]) && Accepts(Rest(tail), s[k..], false)
    ensures LevelsMatch(["#"] + tail, Split(s, '/'))
  {
    assert RestFits(tail, s[k..]);
    SplitAtBoundary(s, k);
    NoNewlineInLevels(s[..k]);
    var front, levels, filters := Split(s[..k], '/'), Split(s, '/'), ["#"] + tail;
    assert levels[..|front|] == front && levels[|front|..] == LevelsAfter(s[k..]);
    assert |filters| > 1 && filters[1..] == tail;
  }

  /** Where a number of levels ends, `.*` may stop. */
  lemma {:induction false} LevelsStopHash(tail: seq<string>, s: string, j: nat)
    requires SuffixesFit(tail, s) && StopsAt(tail, Split(s, '/'), j)
    ensures Accepts([Anything] + Rest(tail), s, false)
  {
    CutOfLevels(s, j);
    var k :| CutAt(s, j, k);
    NoNewlineInLevels(s[..k]);
    assert RestFits(tail, s[k..]);
    var items := [Anything] + Rest(tail);
    assert items[0] == Anything && items[1..] == Rest(tail);
    assert ItemMatches(items[0], s[..k]);
  }

  /** Compiling and matching with `re` is matching level by level, for every filter
      and every topic: a topic that ends in a newline is also matched through `$`. */
  lemma {:induction false} CompilerCorrect(pattern: string, topic: string)
    ensures ReMatch(Expression(pattern), topic) <==>
            || LevelsMatch(Split(pattern, '/'), Split(topic, '/'))
            || (EndsInNewline(topic) && LevelsMatch(Split(pattern, '/'), Split(topic[..|topic| - 1], '/')))
  {
    var levels := Split(pattern, '/');
    ExpressionDenotes(pattern);
    SplitParts(pattern, '/');
    DollarAllowsNewline(Compiled(levels), topic);
    CompiledAccepts(levels, topic);
    if EndsInNewline(topic) { CompiledAccepts(levels, topic[..|topic| - 1]); }
  }
}
