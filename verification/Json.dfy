/** JSON values without fractions, `json.dumps` with sorted keys and compact
    separators, and `json.loads` (RFC 8259, sections 2 to 7). */
module Json {
  import opened Results
  import opened Sequences
  import opened Strings

  datatype Json =
    | Null
    | Bool(b: bool)
    | Int(n: int)
    | Str(s: string)
    | Arr(items: Items)
    | Obj(members: Members)

  datatype Items = NoItems | Item(head: Json, tail: Items)

  datatype Members = NoMembers | Member(key: string, value: Json, rest: Members)

  // ----- objects as dictionaries

  predicate HasKey(ms: Members, key: string) {
    match ms
    case NoMembers => false
    case Member(k, _, rest) => k == key || HasKey(rest, key)
  }

  function Get(ms: Members, key: string): Json
    requires HasKey(ms, key)
  {
    if ms.key == key then ms.value else Get(ms.rest, key)
  }

  /** Every object in the value has each key once, as a dictionary does. */
  predicate Proper(v: Json) {
    match v
    case Arr(items) => ProperItems(items)
    case Obj(ms) => ProperMembers(ms)
    case _ => true
  }

  predicate ProperItems(items: Items) {
    items == NoItems || (Proper(items.head) && ProperItems(items.tail))
  }

  predicate ProperMembers(ms: Members) {
    ms == NoMembers || (!HasKey(ms.rest, ms.key) && Proper(ms.value) && ProperMembers(ms.rest))
  }

  // ----- sorted keys

  function InsertMember(key: string, value: Json, ms: Members): Members {
    match ms
    case NoMembers => Member(key, value, ms)
    case Member(k, v, rest) =>
      if StrLeq(key, k) then Member(key, value, ms) else Member(k, v, InsertMember(key, value, rest))
  }

  /** The value with the members of every object in key order. */
  function Canon(v: Json): Json {
    match v
    case Arr(items) => Arr(CanonItems(items))
    case Obj(ms) => Obj(CanonMembers(ms))
    case _ => v
  }

  function CanonItems(items: Items): Items {
    match items
    case NoItems => NoItems
    case Item(v, rest) => Item(Canon(v), CanonItems(rest))
  }

  function CanonMembers(ms: Members): Members {
    match ms
    case NoMembers => NoMembers
    case Member(k, v, rest) => InsertMember(k, Canon(v), CanonMembers(rest))
  }

  // ----- writing

  function HexDigit(n: nat): char
    requires n < 16
  {
    if n < 10 then '0' + n as char else 'a' + (n - 10) as char
  }

  function EscapeChar(c: char): string {
    if c == '"' then ['\\', '"']
    else if c == '\\' then ['\\', '\\']
    else if c == '\n' then ['\\', 'n']
    else if c == '\r' then ['\\', 'r']
    else if c == '\t' then ['\\', 't']
    else if c == '\U{000C}' then ['\\', 'f']
    else if c == '\U{0008}' then ['\\', 'b']
    else if c < ' ' then ['\\', 'u', '0', '0', HexDigit(c as nat / 16), HexDigit(c as nat % 16)]
    else [c]
  }

  function EscapeAll(s: string): string {
    if s == "" then "" else EscapeChar(s[0]) + EscapeAll(s[1..])
  }

  function Quoted(s: string): string {
    ['"'] + (EscapeAll(s) + ['"'])
  }

  function Decimal(n: int): string {
    if n < 0 then ['-'] + Digits(-n) else Digits(n)
  }

  /** The text of a value, in the order its members are in. */
  function Print(v: Json): string {
    match v
    case Null => "null"
    case Bool(b) => if b then "true" else "false"
    case Int(n) => Decimal(n)
    case Str(s) => Quoted(s)
    case Arr(items) => ['['] + (PrintItems(items) + [']'])
    case Obj(ms) => ['{'] + (PrintMembers(ms) + ['}'])
  }

  function PrintItems(items: Items): string {
    match items
    case NoItems => ""
    case Item(v, rest) => Print(v) + if rest == NoItems then "" else [','] + PrintItems(rest)
  }

  function PrintMembers(ms: Members): string {
    match ms
    case NoMembers => ""
    case Member(k, v, rest) =>
      Quoted(k) + ([':'] + (Print(v) + if rest == NoMembers then "" else [','] + PrintMembers(rest)))
  }

  /** `json.dumps(v, ensure_ascii=False, separators=(",", ":"), sort_keys=True)` */
  function Dumps(v: Json): string {
    Print(Canon(v))
  }

  /** The words and the punctuation of RFC 8259, without blanks. */
  lemma {:induction false} TextOfWords(k: string, c: char, l: string, n: nat)
    ensures Print(Null) == "null" && Print(Bool(true)) == "true" && Print(Bool(false)) == "false"
    ensures Print(Arr(NoItems)) == "[]" && Print(Obj(NoMembers)) == "{}"
    ensures Print(Str(k)) == "\"" + (EscapeAll(k) + "\"") && EscapeAll([c] + l) == EscapeChar(c) + EscapeAll(l)
    ensures n > 0 ==> Print(Int(0 - n)) == "-" + Print(Int(n))
  {
    assert ([c] + l)[1..] == l;
  }

  lemma {:induction false} TextOfArray(v: Json, w: Json)
    ensures Print(Arr(Item(v, Item(w, NoItems)))) == "[" + ((Print(v) + ("," + Print(w))) + "]")
  {
    assert Print(w) + "" == Print(w);
    assert PrintItems(Item(w, NoItems)) == Print(w);
  }

  lemma {:induction false} TextOfObject(k: string, v: Json, l: string, w: Json)
    ensures Print(Obj(Member(k, v, Member(l, w, NoMembers)))) ==
            "{" + ((Print(Str(k)) + (":" + (Print(v) + ("," + (Print(Str(l)) + (":" + Print(w))))))) + "}")
  {
    assert Print(w) + "" == Print(w);
    assert PrintMembers(Member(l, w, NoMembers)) == Print(Str(l)) + (":" + Print(w));
  }

  /** Section 7 of RFC 8259: what is escaped, and how. */
  lemma {:induction false} EscapedIff(c: char)
    ensures EscapeChar(c) == [c] <==> c >= ' ' && c != '"' && c != '\\'
    ensures EscapeChar('\t') == "\\t" && EscapeChar('\r') == "\\r" && EscapeChar('\U{8}') == "\\b"
    ensures EscapeChar('\U{c}') == "\\f" && EscapeChar('\U{1f}') == "\\u001f" && EscapeChar('\0') == "\\u0000"
  {
  }

  // ----- reading

  predicate IsBlank(c: char) {
    c == ' ' || c == '\t' || c == '\n' || c == '\r'
  }

  function SkipBlanks(s: string): (r: string)
    ensures |r| <= |s|
  {
    if s != "" && IsBlank(s[0]) then SkipBlanks(s[1..]) else s
  }

  function HexValue(c: char): Option<nat> {
    if '0' <= c <= '9' then Some((c - '0') as nat)
    else if 'a' <= c <= 'f' then Some((c - 'a') as nat + 10)
    else if 'A' <= c <= 'F' then Some((c - 'A') as nat + 10)
    else None
  }

  /** Four hexadecimal digits; surrogates are outside the model. */
  function ReadHex(s: string): Option<char>
    requires |s| >= 4
  {
    match (HexValue(s[0]), HexValue(s[1]), HexValue(s[2]), HexValue(s[3]))
    case (Some(a), Some(b), Some(c), Some(d)) => CharOf(((a * 16 + b) * 16 + c) * 16 + d)
    case _ => None
  }

  function CharOf(code: nat): Option<char> {
    if code < 0xD800 || 0xE000 <= code < 0x10000 then Some(code as char) else None
  }

  function ReadEscape(c: char): Option<char> {
    match c
    case '"' => Some('"')
    case '\\' => Some('\\')
    case '/' => Some('/')
    case 'b' => Some('\U{0008}')
    case 'f' => Some('\U{000C}')
    case 'n' => Some('\n')
    case 'r' => Some('\r')
    case 't' => Some('\t')
    case _ => None
  }

  datatype Read<T> = Fail | Got(value: T, rest: string)

  function AddChar(c: char, r: Read<string>): Read<string> {
    match r case Fail => Fail case Got(s, rest) => Got([c] + s, rest)
  }

  /** A string after its opening quote. */
  function ReadString(s: string): (r: Read<string>)
    ensures r.Got? ==> |r.rest| < |s|
    decreases |s|
  {
    if s == "" || s[0] < ' ' then Fail
    else if s[0] == '"' then Got("", s[1..])
    else if s[0] != '\\' then AddChar(s[0], ReadString(s[1..]))
    else if |s| < 2 then Fail
    else if s[1] == 'u' then
      if |s| < 6 then Fail
      else match ReadHex(s[2..]) case Some(c) => AddChar(c, ReadString(s[6..])) case None => Fail
    else match ReadEscape(s[1]) case Some(c) => AddChar(c, ReadString(s[2..])) case None => Fail
  }

  function DigitCount(s: string): (n: nat)
    ensures n <= |s|
    ensures forall i :: 0 <= i < n ==> IsDigit(s[i])
  {
    if s == "" || !IsDigit(s[0]) then 0 else 1 + DigitCount(s[1..])
  }

  /** An integer without sign; fractions and exponents are outside the model. */
  function ReadNatural(s: string): (r: Read<nat>)
    ensures r.Got? ==> |r.rest| < |s|
  {
    var all := DigitCount(s);
    if all == 0 then Fail
    else
      var n := if s[0] == '0' then 1 else all;
      if n < |s| && (s[n] == '.' || s[n] == 'e' || s[n] == 'E') then Fail
      else Got(Number(s[..n]), s[n..])
  }

  function ReadWord(s: string): Read<Json> {
    if "null" <= s then Got(Null, s[4..])
    else if "true" <= s then Got(Bool(true), s[4..])
    else if "false" <= s then Got(Bool(false), s[5..])
    else Fail
  }

  /** The dictionary that a list of pairs makes: the last value of a key counts. */
  function Dict(ms: Members): Members {
    match ms
    case NoMembers => NoMembers
    case Member(k, v, rest) =>
      var d := Dict(rest);
      if HasKey(d, k) then Member(k, Get(d, k), Without(d, k)) else Member(k, v, d)
  }

  function Without(ms: Members, key: string): Members {
    match ms
    case NoMembers => NoMembers
    case Member(k, v, rest) => if k == key then rest else Member(k, v, Without(rest, key))
  }

  function ReadValue(s: string): (r: Read<Json>)
    ensures r.Got? ==> |r.rest| < |s|
    decreases |s|, 0
  {
    if s == "" then Fail
    else if IsDigit(s[0]) then (match ReadNatural(s) case Fail => Fail case Got(n, rest) => Got(Int(n), rest))
    else match s[0]
      case '"' => (match ReadString(s[1..]) case Fail => Fail case Got(t, rest) => Got(Str(t), rest))
      case '[' =>
        var inner := SkipBlanks(s[1..]);
        if inner != "" && inner[0] == ']' then Got(Arr(NoItems), inner[1..])
        else (match ReadItems(inner) case Fail => Fail case Got(items, rest) => Got(Arr(items), rest))
      case '{' =>
        var inner := SkipBlanks(s[1..]);
        if inner != "" && inner[0] == '}' then Got(Obj(NoMembers), inner[1..])
        else (match ReadMembers(inner) case Fail => Fail case Got(ms, rest) => Got(Obj(Dict(ms)), rest))
      case '-' => (match ReadNatural(s[1..]) case Fail => Fail case Got(n, rest) => Got(Int(0 - n), rest))
      case _ => ReadWord(s)
  }

  /** Values up to and with the closing bracket. */
  function ReadItems(s: string): (r: Read<Items>)
    ensures r.Got? ==> |r.rest| < |s|
    decreases |s|, 1
  {
    match ReadValue(s)
    case Fail => Fail
    case Got(v, rest) =>
      var after := SkipBlanks(rest);
      if after == "" then Fail
      else if after[0] == ']' then Got(Item(v, NoItems), after[1..])
      else if after[0] != ',' then Fail
      else match ReadItems(SkipBlanks(after[1..]))
        case Fail => Fail
        case Got(items, end) => Got(Item(v, items), end)
  }

  function ReadMembers(s: string): (r: Read<Members>)
    ensures r.Got? ==> |r.rest| < |s|
    decreases |s|, 1
  {
    if s == "" || s[0] != '"' then Fail
    else match ReadString(s[1..])
      case Fail => Fail
      case Got(key, rest) =>
        var colon := SkipBlanks(rest);
        if colon == "" || colon[0] != ':' then Fail
        else match ReadValue(SkipBlanks(colon[1..]))
          case Fail => Fail
          case Got(v, more) =>
            var after := SkipBlanks(more);
            if after == "" then Fail
            else if after[0] == '}' then Got(Member(key, v, NoMembers), after[1..])
            else if after[0] != ',' then Fail
            else match ReadMembers(SkipBlanks(after[1..]))
              case Fail => Fail
              case Got(ms, end) => Got(Member(key, v, ms), end)
  }

  /** `json.loads`; `None` for text that it rejects or that is outside the model. */
  function Loads(text: string): Option<Json> {
    match ReadValue(SkipBlanks(text))
    case Fail => None
    case Got(v, rest) => if SkipBlanks(rest) == "" then Some(v) else None
  }

  // ----- reading undoes writing

  /** What may follow a value inside a text. */
  predicate EndsValue(rest: string) {
    rest == "" || rest[0] == ',' || rest[0] == ']' || rest[0] == '}'
  }

  lemma {:induction false} ReadEscaped(c: char, rest: string)
    ensures ReadString(EscapeChar(c) + rest) == AddChar(c, ReadString(rest))
  {
    var e := EscapeChar(c);
    if |e| == 6 {
      ReadUnicode(c, e + rest, rest);
    } else if |e| == 2 {
    } else {
      assert (e + rest)[1..] == rest;
    }
  }

  lemma {:induction false} ReadUnicode(c: char, s: string, rest: string)
    requires |EscapeChar(c)| == 6 && s == EscapeChar(c) + rest
    ensures ReadString(s) == AddChar(c, ReadString(rest))
  {
    var e := EscapeChar(c);
    assert s[0] == '\\' && s[1] == 'u' && s[6..] == rest;
    var hex := s[2..];
    assert hex[0] == '0' && hex[1] == '0' && hex[2] == e[4] && hex[3] == e[5];
    assert ReadHex(hex) == Some(c);
  }

  lemma {:induction false} ReadQuoted(s: string, rest: string)
    ensures ReadString(EscapeAll(s) + (['"'] + rest)) == Got(s, rest)
  {
    if s == "" {
      assert EscapeAll(s) + (['"'] + rest) == ['"'] + rest;
      assert (['"'] + rest)[1..] == rest;
    } else {
      Regroup(EscapeChar(s[0]), EscapeAll(s[1..]), ['"'] + rest);
      ReadEscaped(s[0], EscapeAll(s[1..]) + (['"'] + rest));
      ReadQuoted(s[1..], rest);
      assert [s[0]] + s[1..] == s;
    }
  }

  lemma {:induction false} DigitCountOf(digits: string, rest: string)
    requires forall i :: 0 <= i < |digits| ==> IsDigit(digits[i])
    requires rest == "" || !IsDigit(rest[0])
    ensures DigitCount(digits + rest) == |digits|
  {
    if digits == "" {
      assert digits + rest == rest;
    } else {
      assert (digits + rest)[1..] == digits[1..] + rest;
      DigitCountOf(digits[1..], rest);
    }
  }

  lemma {:induction false} ReadDigits(n: nat, rest: string)
    requires EndsValue(rest)
    ensures ReadNatural(Digits(n) + rest) == Got(n, rest)
  {
    var digits := Digits(n);
    NumberOfDigits(n);
    DigitCountOf(digits, rest);
    var s := digits + rest;
    assert s[..|digits|] == digits && s[|digits|..] == rest;
    assert s[0] == digits[0];
    if n == 0 { assert |digits| == 1; }
  }

  lemma {:induction false} ReadMinus(digits: string, n: nat, rest: string)
    requires ReadNatural(digits + rest) == Got(n, rest)
    ensures ReadValue(['-'] + digits + rest) == Got(Int(0 - n), rest)
  {
    var s := ['-'] + (digits + rest);
    Regroup(['-'], digits, rest);
    assert s[1..] == digits + rest;
  }

  lemma {:induction false} ReadPositive(s: string, n: nat, rest: string)
    requires s != "" && IsDigit(s[0]) && ReadNatural(s) == Got(n, rest)
    ensures ReadValue(s) == Got(Int(n), rest)
  {
  }

  lemma {:induction false} ReadDecimal(n: int, rest: string)
    requires EndsValue(rest)
    ensures ReadValue(Decimal(n) + rest) == Got(Int(n), rest)
  {
    if n < 0 {
      ReadDigits(-n, rest);
      ReadMinus(Digits(-n), -n, rest);
    } else {
      ReadDigits(n, rest);
      NumberOfDigits(n);
      ReadPositive(Digits(n) + rest, n, rest);
    }
  }

  lemma {:induction false} ReadStringValue(text: string, rest: string)
    ensures ReadValue(Quoted(text) + rest) == Got(Str(text), rest)
  {
    var s := Quoted(text) + rest;
    assert s == ['"'] + (EscapeAll(text) + (['"'] + rest));
    assert s[1..] == EscapeAll(text) + (['"'] + rest);
    ReadQuoted(text, rest);
  }

  lemma {:induction false} ReadWords(rest: string)
    ensures ReadValue("null" + rest) == Got(Null, rest)
    ensures ReadValue("true" + rest) == Got(Bool(true), rest)
    ensures ReadValue("false" + rest) == Got(Bool(false), rest)
  {
    assert ("null" + rest)[4..] == rest && ("true" + rest)[4..] == rest && ("false" + rest)[5..] == rest;
    assert ("null" + rest)[0] == 'n' && ("true" + rest)[0] == 't' && ("false" + rest)[0] == 'f';
  }

  lemma {:induction false} EmptyArray(s: string, rest: string)
    requires s == ['['] + ([']'] + rest)
    ensures ReadValue(s) == Got(Arr(NoItems), rest)
  {
    assert s[1..] == [']'] + rest;
    assert s[1..][1..] == rest;
  }

  lemma {:induction false} EmptyObject(s: string, rest: string)
    requires s == ['{'] + (['}'] + rest)
    ensures ReadValue(s) == Got(Obj(NoMembers), rest)
  {
    assert s[1..] == ['}'] + rest;
    assert s[1..][1..] == rest;
  }

  lemma {:induction false} OpenObject(s: string, inner: string, ms: Members, rest: string)
    requires s == ['{'] + inner && inner != "" && inner[0] == '"'
    requires ReadMembers(inner) == Got(ms, rest)
    ensures ReadValue(s) == Got(Obj(Dict(ms)), rest)
  {
    assert s[1..] == inner;
  }

  lemma {:induction false} LastMember(key: string, text: string, v: Json, rest: string)
    requires text != "" && !IsBlank(text[0]) && ReadValue(text) == Got(v, ['}'] + rest)
    ensures ReadMembers(Quoted(key) + ([':'] + text)) == Got(Member(key, v, NoMembers), rest)
  {
    MemberHead(key, text);
    assert (['}'] + rest)[1..] == rest;
  }

  lemma {:induction false} NextMember(key: string, text: string, v: Json, more: string, ms: Members, rest: string)
    requires text != "" && !IsBlank(text[0]) && ReadValue(text) == Got(v, [','] + more)
    requires more != "" && !IsBlank(more[0]) && ReadMembers(more) == Got(ms, rest)
    ensures ReadMembers(Quoted(key) + ([':'] + text)) == Got(Member(key, v, ms), rest)
  {
    MemberHead(key, text);
    assert ([','] + more)[1..] == more;
  }

  lemma {:induction false} MemberHead(key: string, text: string)
    requires text != "" && !IsBlank(text[0])
    ensures var s := Quoted(key) + ([':'] + text);
            && s != "" && s[0] == '"' && ReadString(s[1..]) == Got(key, [':'] + text)
            && SkipBlanks([':'] + text) == [':'] + text && ([':'] + text)[1..] == text
            && SkipBlanks(text) == text
  {
    var s := Quoted(key) + ([':'] + text);
    assert s[1..] == EscapeAll(key) + (['"'] + ([':'] + text));
    ReadQuoted(key, [':'] + text);
  }

  /** A printed value starts with a character that opens a value. */
  lemma {:induction false} PrintStarts(v: Json)
    ensures Print(v) != "" && !IsBlank(Print(v)[0]) && Print(v)[0] != ']'
  {
    match v
    case Int(n) => NumberOfDigits(if n < 0 then -n else n);
    case _ =>
  }

  lemma {:induction false} DictOfProper(ms: Members)
    requires ProperMembers(ms)
    ensures Dict(ms) == ms
  {
    match ms
    case NoMembers =>
    case Member(_, _, rest) => DictOfProper(rest);
  }

  /** Reading a printed value gives back the value and stops behind it. */
  lemma {:induction false} ReadPrinted(v: Json, rest: string)
    requires Proper(v) && EndsValue(rest)
    ensures ReadValue(Print(v) + rest) == Got(v, rest)
    decreases v, 0
  {
    match v
    case Null => ReadWords(rest);
    case Bool(_) => ReadWords(rest);
    case Int(n) => ReadDecimal(n, rest);
    case Str(s) => ReadStringValue(s, rest);
    case Arr(items) => ReadPrintedArray(items, rest);
    case Obj(ms) => ReadPrintedObject(ms, rest);
  }

  lemma {:induction false} ReadPrintedArray(items: Items, rest: string)
    requires ProperItems(items)
    ensures ReadValue(Print(Arr(items)) + rest) == Got(Arr(items), rest)
    decreases items, 1
  {
    var inner := PrintItems(items) + ([']'] + rest);
    assert Print(Arr(items)) + rest == ['['] + inner;
    if items == NoItems {
      assert inner == [']'] + rest;
      EmptyArray(['['] + inner, rest);
    } else {
      ReadPrintedItems(items, rest);
      PrintStarts(items.head);
    }
  }

  /** What stands behind the first item of a list. */
  function AfterItem(rest: Items, end: string): string {
    if rest == NoItems then end else [','] + (PrintItems(rest) + end)
  }

  lemma {:induction false} ItemsText(items: Items, end: string)
    requires items != NoItems
    ensures PrintItems(items) + end == Print(items.head) + AfterItem(items.tail, end)
  {
  }

  lemma {:induction false} ReadPrintedItems(items: Items, rest: string)
    requires items != NoItems && ProperItems(items)
    ensures ReadItems(PrintItems(items) + ([']'] + rest)) == Got(items, rest)
    decreases items, 0
  {
    var v, after := items.head, AfterItem(items.tail, [']'] + rest);
    ItemsText(items, [']'] + rest);
    ReadPrinted(v, after);
    if items.tail == NoItems {
    } else {
      ReadPrintedItems(items.tail, rest);
      ItemsText(items.tail, [']'] + rest);
      PrintStarts(items.tail.head);
    }
  }

  lemma {:induction false} ReadPrintedObject(ms: Members, rest: string)
    requires ProperMembers(ms)
    ensures ReadValue(Print(Obj(ms)) + rest) == Got(Obj(ms), rest)
    decreases ms, 1
  {
    var inner := PrintMembers(ms) + (['}'] + rest);
    assert Print(Obj(ms)) + rest == ['{'] + inner;
    DictOfProper(ms);
    if ms == NoMembers {
      assert inner == ['}'] + rest;
      EmptyObject(['{'] + inner, rest);
    } else {
      ReadPrintedMembers(ms, rest);
      OpenObject(['{'] + inner, inner, ms, rest);
    }
  }

  function AfterMember(rest: Members, end: string): string {
    if rest == NoMembers then end else [','] + (PrintMembers(rest) + end)
  }

  lemma {:induction false} MembersText(ms: Members, end: string)
    requires ms != NoMembers
    ensures PrintMembers(ms) + end == Quoted(ms.key) + ([':'] + (Print(ms.value) + AfterMember(ms.rest, end)))
  {
  }

  lemma {:induction false} ReadPrintedMembers(ms: Members, rest: string)
    requires ms != NoMembers && ProperMembers(ms)
    ensures ReadMembers(PrintMembers(ms) + (['}'] + rest)) == Got(ms, rest)
    decreases ms, 0
  {
    var v, after := ms.value, AfterMember(ms.rest, ['}'] + rest);
    MembersText(ms, ['}'] + rest);
    ReadPrinted(v, after);
    PrintStarts(v);
    if ms.rest == NoMembers {
      LastMember(ms.key, Print(v) + after, v, rest);
    } else {
      ReadPrintedMembers(ms.rest, rest);
      MembersText(ms.rest, ['}'] + rest);
      NextMember(ms.key, Print(v) + after, v, PrintMembers(ms.rest) + (['}'] + rest), ms.rest, rest);
    }
  }

  // ----- the canonical form

  predicate SortedMembers(ms: Members) {
    match ms
    case NoMembers => true
    case Member(k, _, rest) => (rest == NoMembers || StrLeq(k, rest.key)) && SortedMembers(rest)
  }

  lemma {:induction false} InsertedMember(key: string, value: Json, ms: Members, k: string)
    requires !HasKey(ms, key)
    ensures HasKey(InsertMember(key, value, ms), k) <==> k == key || HasKey(ms, k)
    ensures HasKey(InsertMember(key, value, ms), k) ==>
              Get(InsertMember(key, value, ms), k) == if k == key then value else Get(ms, k)
  {
    if ms.Member? { InsertedMember(key, value, ms.rest, k); }
  }

  lemma {:induction false} InsertedSorted(key: string, value: Json, ms: Members)
    requires SortedMembers(ms)
    ensures SortedMembers(InsertMember(key, value, ms))
  {
    if ms.Member? && !StrLeq(key, ms.key) {
      InsertedSorted(key, value, ms.rest);
      StrLeqTotal(key, ms.key);
    }
  }

  lemma {:induction false} InsertedProper(key: string, value: Json, ms: Members)
    requires !HasKey(ms, key) && Proper(value) && ProperMembers(ms)
    ensures ProperMembers(InsertMember(key, value, ms))
  {
    if ms.Member? && !StrLeq(key, ms.key) {
      InsertedProper(key, value, ms.rest);
      InsertedMember(key, value, ms.rest, ms.key);
    }
  }

  /** Sorting keeps the keys and makes every member canonical. */
  lemma {:induction false} CanonMember(ms: Members, k: string)
    requires ProperMembers(ms)
    ensures HasKey(CanonMembers(ms), k) <==> HasKey(ms, k)
    ensures HasKey(ms, k) ==> Get(CanonMembers(ms), k) == Canon(Get(ms, k))
  {
    match ms
    case NoMembers =>
    case Member(key, v, rest) =>
      CanonMember(rest, k);
      CanonMember(rest, key);
      InsertedMember(key, Canon(v), CanonMembers(rest), k);
  }

  lemma {:induction false} CanonProper(v: Json)
    requires Proper(v)
    ensures Proper(Canon(v))
    decreases v
  {
    match v
    case Arr(items) => CanonItemsProper(items);
    case Obj(ms) => CanonMembersProper(ms);
    case _ =>
  }

  lemma {:induction false} CanonItemsProper(items: Items)
    requires ProperItems(items)
    ensures ProperItems(CanonItems(items))
    decreases items
  {
    if items.Item? { CanonProper(items.head); CanonItemsProper(items.tail); }
  }

  lemma {:induction false} CanonMembersProper(ms: Members)
    requires ProperMembers(ms)
    ensures ProperMembers(CanonMembers(ms)) && SortedMembers(CanonMembers(ms))
    decreases ms
  {
    if ms.Member? {
      CanonProper(ms.value);
      CanonMembersProper(ms.rest);
      CanonMember(ms.rest, ms.key);
      InsertedProper(ms.key, Canon(ms.value), CanonMembers(ms.rest));
      InsertedSorted(ms.key, Canon(ms.value), CanonMembers(ms.rest));
    }
  }

  /** Members in key order are determined by what each key is mapped to. */
  lemma {:induction false} SortedByLookup(a: Members, b: Members)
    requires ProperMembers(a) && ProperMembers(b) && SortedMembers(a) && SortedMembers(b)
    requires forall k :: HasKey(a, k) <==> HasKey(b, k)
    requires forall k :: HasKey(a, k) ==> Get(a, k) == Get(b, k)
    ensures a == b
  {
    if a == NoMembers || b == NoMembers {
      assert (a.Member? ==> HasKey(a, a.key)) && (b.Member? ==> HasKey(b, b.key));
    } else {
      assert HasKey(a, a.key) && HasKey(b, b.key);
      FirstIsLeast(a, b.key);
      FirstIsLeast(b, a.key);
      StrLeqAntisymmetric(a.key, b.key);
      forall k ensures HasKey(a.rest, k) <==> HasKey(b.rest, k) {
        assert HasKey(a, k) <==> HasKey(b, k);
      }
      forall k | HasKey(a.rest, k) ensures Get(a.rest, k) == Get(b.rest, k) {
        assert HasKey(a, k) && Get(a, k) == Get(b, k);
      }
      assert Get(a, a.key) == Get(b, a.key);
      SortedByLookup(a.rest, b.rest);
    }
  }

  lemma {:induction false} FirstIsLeast(ms: Members, k: string)
    requires SortedMembers(ms) && HasKey(ms, k)
    ensures StrLeq(ms.key, k)
  {
    if ms.key == k {
      StrLeqTotal(k, k);
    } else {
      FirstIsLeast(ms.rest, k);
      StrLeqTransitive(ms.key, ms.rest.key, k);
    }
  }

  ghost predicate AgreeAt(a: Members, b: Members, k: string) {
    (HasKey(a, k) <==> HasKey(b, k)) && (HasKey(a, k) ==> Canon(Get(a, k)) == Canon(Get(b, k)))
  }

  /** Two dictionaries have the same canonical form exactly when they have the same
      keys with the same values: the order of insertion does not show. */
  lemma {:induction false} SameCanonIff(a: Members, b: Members)
    requires ProperMembers(a) && ProperMembers(b)
    ensures Canon(Obj(a)) == Canon(Obj(b)) <==> forall k :: AgreeAt(a, b, k)
  {
    CanonMembersProper(a);
    CanonMembersProper(b);
    forall k
      ensures AgreeAt(a, b, k) <==>
              (HasKey(CanonMembers(a), k) <==> HasKey(CanonMembers(b), k)) &&
              (HasKey(CanonMembers(a), k) ==> Get(CanonMembers(a), k) == Get(CanonMembers(b), k))
    {
      CanonMember(a, k);
      CanonMember(b, k);
    }
    if forall k :: AgreeAt(a, b, k) {
      forall k ensures (HasKey(CanonMembers(a), k) <==> HasKey(CanonMembers(b), k)) &&
                       (HasKey(CanonMembers(a), k) ==> Get(CanonMembers(a), k) == Get(CanonMembers(b), k))
      {
        assert AgreeAt(a, b, k);
      }
      SortedByLookup(CanonMembers(a), CanonMembers(b));
    }
  }

  lemma {:induction false} CanonIdempotent(v: Json)
    requires Proper(v)
    ensures Canon(Canon(v)) == Canon(v)
    decreases v, 0
  {
    match v
    case Arr(items) => CanonItemsIdempotent(items);
    case Obj(ms) => CanonMembersIdempotent(ms);
    case _ =>
  }

  lemma {:induction false} CanonItemsIdempotent(items: Items)
    requires ProperItems(items)
    ensures CanonItems(CanonItems(items)) == CanonItems(items)
    decreases items, 0
  {
    if items.Item? { CanonIdempotent(items.head); CanonItemsIdempotent(items.tail); }
  }

  lemma {:induction false} CanonMembersIdempotent(ms: Members)
    requires ProperMembers(ms)
    ensures CanonMembers(CanonMembers(ms)) == CanonMembers(ms)
    decreases ms, 1
  {
    CanonMembersProper(ms);
    CanonMembersProper(CanonMembers(ms));
    forall k ensures AgreeAt(CanonMembers(ms), ms, k) {
      CanonMember(ms, k);
      if HasKey(ms, k) { CanonOfMember(ms, k); }
    }
    SameCanonIff(CanonMembers(ms), ms);
  }

  lemma {:induction false} CanonOfMember(ms: Members, k: string)
    requires ProperMembers(ms) && HasKey(ms, k)
    ensures Canon(Canon(Get(ms, k))) == Canon(Get(ms, k))
    decreases ms, 0
  {
    if ms.key == k { CanonIdempotent(ms.value); } else { CanonOfMember(ms.rest, k); }
  }

  // ----- round trip and injectivity

  /** Reading what was written gives the value, with its members in key order. */
  lemma {:induction false} LoadsDumps(v: Json)
    requires Proper(v)
    ensures Loads(Dumps(v)) == Some(Canon(v))
  {
    CanonProper(v);
    PrintStarts(Canon(v));
    ReadPrinted(Canon(v), "");
    assert Print(Canon(v)) + "" == Print(Canon(v));
  }

  /** Writing it once more gives the same text. */
  lemma {:induction false} DumpsAgain(v: Json)
    requires Proper(v)
    ensures Loads(Dumps(v)).Some? && Dumps(Loads(Dumps(v)).value) == Dumps(v)
  {
    LoadsDumps(v);
    CanonIdempotent(v);
  }

  /** Equal texts come from equal values only. */
  lemma {:induction false} DumpsInjective(v: Json, w: Json)
    requires Proper(v) && Proper(w)
    ensures Dumps(v) == Dumps(w) <==> Canon(v) == Canon(w)
  {
    LoadsDumps(v);
    LoadsDumps(w);
  }

  // ----- what is read is a proper value

  lemma {:induction false} WithoutKey(ms: Members, key: string, k: string)
    requires ProperMembers(ms)
    ensures HasKey(Without(ms, key), k) <==> HasKey(ms, k) && k != key
    ensures HasKey(ms, k) && k != key ==> Get(Without(ms, key), k) == Get(ms, k)
    ensures ProperMembers(Without(ms, key))
  {
    if ms.Member? {
      WithoutKey(ms.rest, key, k);
      WithoutKey(ms.rest, key, ms.key);
    }
  }

  lemma {:induction false} GetProper(ms: Members, key: string)
    requires ProperMembers(ms) && HasKey(ms, key)
    ensures Proper(Get(ms, key))
  {
    if ms.key != key { GetProper(ms.rest, key); }
  }

  predicate ProperValues(ms: Members) {
    match ms
    case NoMembers => true
    case Member(_, v, rest) => Proper(v) && ProperValues(rest)
  }

  /** A dictionary has each key once, and the last value given for it. */
  lemma {:induction false} DictProper(ms: Members)
    requires ProperValues(ms)
    ensures ProperMembers(Dict(ms))
  {
    if ms.Member? {
      DictProper(ms.rest);
      if HasKey(Dict(ms.rest), ms.key) {
        WithoutKey(Dict(ms.rest), ms.key, ms.key);
        GetProper(Dict(ms.rest), ms.key);
      }
    }
  }

  /** The value that stands last under a key. */
  function LastValue(ms: Members, k: string): Json
    requires HasKey(ms, k)
  {
    if HasKey(ms.rest, k) then LastValue(ms.rest, k) else ms.value
  }

  /** Of repeated keys the last value counts. */
  lemma {:induction false} DictLookup(ms: Members, k: string)
    requires ProperValues(ms)
    ensures HasKey(Dict(ms), k) <==> HasKey(ms, k)
    ensures HasKey(ms, k) ==> Get(Dict(ms), k) == LastValue(ms, k)
  {
    if ms.Member? {
      var d := Dict(ms.rest);
      DictLookup(ms.rest, k);
      DictProper(ms.rest);
      if HasKey(d, ms.key) && k != ms.key { WithoutKey(d, ms.key, k); }
    }
  }

  lemma {:induction false} ReadProper(s: string)
    ensures forall v, rest :: ReadValue(s) == Got(v, rest) ==> Proper(v)
    decreases |s|, 0
  {
    if ReadValue(s) == Fail { return; }
    var inner := if s != "" then SkipBlanks(s[1..]) else "";
    if s[0] == '[' {
      if inner == "" || inner[0] != ']' { ReadItemsProper(inner); }
    } else if s[0] == '{' {
      if inner == "" || inner[0] != '}' {
        ReadMembersProper(inner);
        DictProper(ReadMembers(inner).value);
      }
    }
  }

  lemma {:induction false} ReadItemsProper(s: string)
    ensures forall items, rest :: ReadItems(s) == Got(items, rest) ==> ProperItems(items)
    decreases |s|, 1
  {
    if ReadItems(s) == Fail { return; }
    ReadProper(s);
    var after := SkipBlanks(ReadValue(s).rest);
    if after[0] == ',' { ReadItemsProper(SkipBlanks(after[1..])); }
  }

  lemma {:induction false} ReadMembersProper(s: string)
    ensures forall ms, rest :: ReadMembers(s) == Got(ms, rest) ==> ProperValues(ms)
    decreases |s|, 1
  {
    if ReadMembers(s) == Fail { return; }
    var colon := SkipBlanks(ReadString(s[1..]).rest);
    ReadProper(SkipBlanks(colon[1..]));
    var after := SkipBlanks(ReadValue(SkipBlanks(colon[1..])).rest);
    if after[0] == ',' { ReadMembersProper(SkipBlanks(after[1..])); }
  }

  /** `json.loads` only returns values whose objects have each key once. */
  lemma {:induction false} LoadsProper(text: string)
    ensures forall v :: Loads(text) == Some(v) ==> Proper(v)
  {
    ReadProper(SkipBlanks(text));
  }

  // ----- objects with a fixed list of fields

  function Fields(names: seq<string>, values: seq<Json>): Members
    requires |names| == |values|
  {
    if names == [] then NoMembers else Member(names[0], values[0], Fields(names[1..], values[1..]))
  }

  lemma {:induction false} FieldsKeys(names: seq<string>, values: seq<Json>, k: string)
    requires |names| == |values|
    ensures HasKey(Fields(names, values), k) <==> k in names
  {
    if names != [] {
      FieldsKeys(names[1..], values[1..], k);
      assert names == [names[0]] + names[1..];
    }
  }

  lemma {:induction false} FieldsProper(names: seq<string>, values: seq<Json>)
    requires |names| == |values| && Distinct(names)
    requires forall i :: 0 <= i < |values| ==> Proper(values[i])
    ensures ProperMembers(Fields(names, values))
  {
    if names != [] {
      FieldsProper(names[1..], values[1..]);
      FieldsKeys(names[1..], values[1..], names[0]);
      forall k | 0 <= k < |names[1..]| ensures names[1..][k] != names[0] { assert names[0] != names[k + 1]; }
    }
  }

  lemma {:induction false} FieldsGet(names: seq<string>, values: seq<Json>, i: nat)
    requires |names| == |values| && Distinct(names) && i < |names|
    ensures HasKey(Fields(names, values), names[i]) && Get(Fields(names, values), names[i]) == values[i]
  {
    if i > 0 { FieldsGet(names[1..], values[1..], i - 1); }
  }

  lemma {:induction false} FieldsCanon(names: seq<string>, a: seq<Json>, b: seq<Json>)
    requires |names| == |a| == |b| && forall i :: 0 <= i < |names| ==> Canon(a[i]) == Canon(b[i])
    ensures CanonMembers(Fields(names, a)) == CanonMembers(Fields(names, b))
  {
    if names != [] { FieldsCanon(names[1..], a[1..], b[1..]); }
  }

  /** The text of an object with fixed fields determines every field, up to the
      order of keys inside it. */
  lemma {:induction false} FieldsDetermined(names: seq<string>, a: seq<Json>, b: seq<Json>)
    requires |names| == |a| == |b| && Distinct(names)
    requires forall i :: 0 <= i < |names| ==> Proper(a[i]) && Proper(b[i])
    ensures Dumps(Obj(Fields(names, a))) == Dumps(Obj(Fields(names, b))) <==>
            forall i :: 0 <= i < |names| ==> Canon(a[i]) == Canon(b[i])
  {
    var x, y := Fields(names, a), Fields(names, b);
    FieldsProper(names, a);
    FieldsProper(names, b);
    DumpsInjective(Obj(x), Obj(y));
    SameCanonIff(x, y);
    if Canon(Obj(x)) == Canon(Obj(y)) {
      forall i | 0 <= i < |names| ensures Canon(a[i]) == Canon(b[i]) {
        FieldsGet(names, a, i);
        FieldsGet(names, b, i);
        assert AgreeAt(x, y, names[i]);
      }
    }
    if forall i :: 0 <= i < |names| ==> Canon(a[i]) == Canon(b[i]) { FieldsCanon(names, a, b); }
  }
}
