/** The Python string operations that the modelled code is written in:
    split and join on one character, whitespace tokenising, strip, splitlines,
    replace, and the code-point order used by `sorted`. */
module Strings {
  import opened Sequences

  // ----- split and join on one separator character

  /** The effect of one more leading character on a split. */
  function Extend(c: char, parts: seq<string>, sep: char): seq<string>
    requires |parts| >= 1
  {
    if c == sep then [""] + parts else [[c] + parts[0]] + parts[1..]
  }

  function Split(s: string, sep: char): (parts: seq<string>)
    ensures |parts| >= 1
  {
    if s == "" then [""] else Extend(s[0], Split(s[1..], sep), sep)
  }

  function Join(parts: seq<string>, sep: char): string {
    if |parts| == 0 then ""
    else if |parts| == 1 then parts[0]
    else parts[0] + [sep] + Join(parts[1..], sep)
  }

  lemma {:induction false} SplitParts(s: string, sep: char)
    ensures forall i :: 0 <= i < |Split(s, sep)| ==> sep !in Split(s, sep)[i]
  {
    if s != "" { SplitParts(s[1..], sep); }
  }

  lemma {:induction false} JoinCons(parts: seq<string>, sep: char)
    requires |parts| > 1
    ensures Join(parts, sep) == parts[0] + ([sep] + Join(parts[1..], sep))
  {
    Regroup(parts[0], [sep], Join(parts[1..], sep));
  }

  function FlatMap<T>(f: T -> string, items: seq<T>): string {
    if items == [] then "" else f(items[0]) + FlatMap(f, items[1..])
  }

  lemma {:induction false} FlatMapConcat<T>(f: T -> string, a: seq<T>, b: seq<T>)
    ensures FlatMap(f, a + b) == FlatMap(f, a) + FlatMap(f, b)
  {
    if a == [] {
      assert a + b == b;
    } else {
      FlatMapConcat(f, a[1..], b);
      assert (a + b)[1..] == a[1..] + b;
      Regroup(f(a[0]), FlatMap(f, a[1..]), FlatMap(f, b));
    }
  }

  lemma {:induction false} SplitWithoutSep(s: string, sep: char)
    requires sep !in s
    ensures Split(s, sep) == [s]
  {
    if s != "" {
      SplitWithoutSep(s[1..], sep);
      assert [s[0]] + s[1..] == s;
    }
  }

  lemma {:induction false} SplitCons(c: char, s: string, sep: char)
    ensures Split([c] + s, sep) == Extend(c, Split(s, sep), sep)
  {
    assert ([c] + s)[1..] == s;
  }

  lemma {:induction false} SplitConcat(a: string, b: string, sep: char)
    ensures Split(a + [sep] + b, sep) == Split(a, sep) + Split(b, sep)
  {
    if a == "" {
      SplitCons(sep, b, sep);
      assert a + [sep] + b == [sep] + b;
    } else {
      var a' := a[1..];
      SplitConcat(a', b, sep);
      assert a + [sep] + b == [a[0]] + (a' + [sep] + b);
      assert a == [a[0]] + a';
      SplitCons(a[0], a', sep);
      SplitCons(a[0], a' + [sep] + b, sep);
      ExtendConcat(a[0], Split(a', sep), Split(b, sep), sep);
    }
  }

  lemma {:induction false} ExtendConcat(c: char, p: seq<string>, q: seq<string>, sep: char)
    requires |p| >= 1
    ensures Extend(c, p + q, sep) == Extend(c, p, sep) + q
  {
    assert (p + q)[1..] == p[1..] + q;
  }

  /** Splitting undoes joining, for parts that do not contain the separator. */
  lemma {:induction false} SplitJoin(parts: seq<string>, sep: char)
    requires |parts| >= 1 && forall i :: 0 <= i < |parts| ==> sep !in parts[i]
    ensures Split(Join(parts, sep), sep) == parts
  {
    SplitWithoutSep(parts[0], sep);
    if |parts| > 1 {
      SplitJoin(parts[1..], sep);
      SplitConcat(parts[0], Join(parts[1..], sep), sep);
    }
  }

  /** Joining undoes splitting, for every string. */
  lemma {:induction false} JoinSplit(s: string, sep: char)
    ensures Join(Split(s, sep), sep) == s
  {
    if s != "" {
      JoinSplit(s[1..], sep);
      var rest := Split(s[1..], sep);
      if s[0] == sep {
        assert ([""] + rest)[1..] == rest;
        assert Join(Split(s, sep), sep) == [sep] + s[1..];
      } else {
        var parts := [[s[0]] + rest[0]] + rest[1..];
        assert parts[1..] == rest[1..];
        assert Join(parts, sep) == [s[0]] + Join(rest, sep);
      }
    }
  }

  lemma {:induction false} JoinConcat(a: seq<string>, b: seq<string>, sep: char)
    requires |a| >= 1 && |b| >= 1
    ensures Join(a + b, sep) == Join(a, sep) + [sep] + Join(b, sep)
  {
    if |a| > 1 {
      JoinConcat(a[1..], b, sep);
      assert (a + b)[1..] == a[1..] + b;
    } else {
      assert (a + b)[1..] == b;
    }
  }

  /** A character other than the separator occurs in a string iff it occurs in a part. */
  lemma {:induction false} SplitKeepsChars(s: string, sep: char, c: char)
    requires c != sep
    ensures c in s <==> exists p :: p in Split(s, sep) && c in p
  {
    if s != "" {
      SplitKeepsChars(s[1..], sep, c);
      var rest := Split(s[1..], sep);
      assert s == [s[0]] + s[1..];
      var parts := Split(s, sep);
      if s[0] == sep {
        assert forall p :: p in parts <==> p == "" || p in rest;
      } else {
        assert rest == [rest[0]] + rest[1..];
        assert parts[0] == [s[0]] + rest[0] && parts[1..] == rest[1..];
        if c in s {
          if c == s[0] {
            assert c in parts[0] && parts[0] in parts;
          } else {
            var p :| p in rest && c in p;
            assert p == rest[0] || p in rest[1..];
            assert p == rest[0] ==> c in parts[0] && parts[0] in parts;
          }
        } else {
          assert forall p :: p in parts ==> p == parts[0] || p in rest;
        }
      }
    }
  }

  // ----- containment and replacement

  /** `part in s` */
  predicate Contains(s: string, part: string) {
    exists i :: 0 <= i <= |s| && part <= s[i..]
  }

  /** `s.replace(old, new)`: every occurrence, left to right, without overlap. */
  lemma {:induction false} ContainsPair(s: string, part: string)
    requires |part| == 2
    ensures Contains(s, part) <==> exists i :: 0 <= i < |s| - 1 && s[i] == part[0] && s[i + 1] == part[1]
  {
    if i :| 0 <= i <= |s| && part <= s[i..] {
      assert s[i..][0] == s[i] && s[i..][1] == s[i + 1];
    }
    if i :| 0 <= i < |s| - 1 && s[i] == part[0] && s[i + 1] == part[1] {
      assert s[i..][..2] == part;
      assert part <= s[i..];
    }
  }

  function Replace(s: string, pat: string, sub: string): string
    requires pat != ""
  {
    if |s| < |pat| then s
    else if pat <= s then sub + Replace(s[|pat|..], pat, sub)
    else [s[0]] + Replace(s[1..], pat, sub)
  }

  /** A prefix in which no occurrence starts is copied. */
  lemma {:induction false} ReplaceSkips(a: string, b: string, pat: string, sub: string)
    requires pat != ""
    requires forall i :: 0 <= i < |a| ==> !(pat <= (a + b)[i..])
    ensures Replace(a + b, pat, sub) == a + Replace(b, pat, sub)
  {
    var s := a + b;
    if a == "" {
      assert s == b;
    } else {
      assert s[0..] == s && s[0] == a[0];
      assert s[1..] == a[1..] + b;
      forall i | 0 <= i < |a[1..]| ensures !(pat <= (a[1..] + b)[i..]) {
        assert (a[1..] + b)[i..] == s[i + 1..];
      }
      ReplaceSkips(a[1..], b, pat, sub);
      if |s| >= |pat| {
        assert !(pat <= s);
        Regroup([a[0]], a[1..], Replace(b, pat, sub));
        assert [a[0]] + a[1..] == a;
      }
    }
  }

  // ----- whitespace: str.isspace, strip, split(), splitlines

  predicate IsSpace(c: char) {
    || '\U{0009}' <= c <= '\U{000D}'
    || '\U{001C}' <= c <= '\U{0020}'
    || c == '\U{0085}' || c == '\U{00A0}' || c == '\U{1680}'
    || '\U{2000}' <= c <= '\U{200A}'
    || c == '\U{2028}' || c == '\U{2029}' || c == '\U{202F}'
    || c == '\U{205F}' || c == '\U{3000}'
  }

  predicate IsLineBreak(c: char) {
    || '\U{000A}' <= c <= '\U{000D}'
    || '\U{001C}' <= c <= '\U{001E}'
    || c == '\U{0085}' || c == '\U{2028}' || c == '\U{2029}'
  }

  /** The code points that `isspace` and `splitlines` know. */
  lemma {:induction false} BlankCodes(c: char)
    ensures IsSpace(c) <==>
            || c as int in {9, 10, 11, 12, 13, 28, 29, 30, 31, 32, 133, 160, 5760, 8232, 8233, 8239, 8287, 12288}
            || 8192 <= c as int <= 8202
    ensures IsLineBreak(c) <==> c as int in {10, 11, 12, 13, 28, 29, 30, 133, 8232, 8233}
  {
  }

  predicate NoLineBreak(s: string) {
    forall i :: 0 <= i < |s| ==> !IsLineBreak(s[i])
  }

  predicate NoSpace(s: string) {
    forall i :: 0 <= i < |s| ==> !IsSpace(s[i])
  }

  function StripLeft(s: string): (r: string)
    ensures |r| <= |s|
    ensures r != "" ==> !IsSpace(r[0])
  {
    if s != "" && IsSpace(s[0]) then StripLeft(s[1..]) else s
  }

  function StripRight(s: string): string {
    if s != "" && IsSpace(s[|s| - 1]) then StripRight(s[..|s| - 1]) else s
  }

  function Strip(s: string): string {
    StripRight(StripLeft(s))
  }

  predicate AllSpace(s: string) {
    forall i :: 0 <= i < |s| ==> IsSpace(s[i])
  }

  lemma {:induction false} StripLeftIs(a: string, t: string)
    requires AllSpace(a) && (t != "" ==> !IsSpace(t[0]))
    ensures StripLeft(a + t) == t
  {
    if a == "" {
      assert a + t == t;
    } else {
      assert (a + t)[1..] == a[1..] + t;
      StripLeftIs(a[1..], t);
    }
  }

  lemma {:induction false} StripRightIs(t: string, b: string)
    requires AllSpace(b) && (t != "" ==> !IsSpace(t[|t| - 1]))
    ensures StripRight(t + b) == t
  {
    if b == "" {
      assert t + b == t;
    } else {
      assert (t + b)[..|t + b| - 1] == t + b[..|b| - 1];
      StripRightIs(t, b[..|b| - 1]);
    }
  }

  /** Blanks around the text go, and the text stays. */
  lemma {:induction false} StripIs(a: string, s: string, b: string)
    requires AllSpace(a) && AllSpace(b) && (s != "" ==> !IsSpace(s[0]) && !IsSpace(s[|s| - 1]))
    ensures Strip(a + s + b) == s
  {
    if s == "" {
      assert a + s + b == (a + b) + "";
      StripLeftIs(a + b, "");
    } else {
      Regroup(a, s, b);
      StripLeftIs(a, s + b);
      StripRightIs(s, b);
    }
  }

  function Word(s: string): (w: string)
    ensures w <= s && NoSpace(w)
    ensures |w| < |s| ==> IsSpace(s[|w|])
    ensures s != "" && !IsSpace(s[0]) ==> w != ""
  {
    if s == "" || IsSpace(s[0]) then "" else [s[0]] + Word(s[1..])
  }

  predicate AllWords(words: seq<string>) {
    forall i :: 0 <= i < |words| ==> words[i] != "" && NoSpace(words[i])
  }

  /** `s.split()`: the maximal runs of non-whitespace characters. */
  function Tokens(s: string): (words: seq<string>)
    ensures AllWords(words)
    decreases |s|
  {
    var t := StripLeft(s);
    if t == "" then [] else [Word(t)] + Tokens(t[|Word(t)|..])
  }

  lemma {:induction false} WordOf(w: string, rest: string)
    requires NoSpace(w) && (rest == "" || IsSpace(rest[0]))
    ensures Word(w + rest) == w
  {
    if w == "" {
      assert w + rest == rest;
    } else {
      assert (w + rest)[1..] == w[1..] + rest;
      WordOf(w[1..], rest);
    }
  }

  /** Leading whitespace does not change the tokens. */
  lemma {:induction false} TokensOfSpaced(s: string)
    ensures Tokens([' '] + s) == Tokens(s)
  {
    assert ([' '] + s)[1..] == s;
    assert StripLeft([' '] + s) == StripLeft(s);
  }

  lemma {:induction false} TokensCons(w: string, rest: string)
    requires w != "" && NoSpace(w)
    ensures Tokens(w + [' '] + rest) == [w] + Tokens(rest)
  {
    var s := w + [' '] + rest;
    assert s == w + ([' '] + rest);
    WordOf(w, [' '] + rest);
    assert StripLeft(s) == s;
    assert s[|w|..] == [' '] + rest;
    TokensOfSpaced(rest);
  }

  lemma {:induction false} TokensOfJoin(words: seq<string>)
    requires AllWords(words)
    ensures Tokens(Join(words, ' ')) == words
  {
    if |words| == 1 {
      var w := words[0];
      WordOf(w, "");
      assert w + "" == w;
      assert w[|w|..] == "";
    } else if |words| > 1 {
      TokensOfJoin(words[1..]);
      TokensCons(words[0], Join(words[1..], ' '));
    }
  }

  /** A joined word list starts and ends with a non-space and holds no line break. */
  lemma {:induction false} JoinedWords(words: seq<string>)
    requires |words| >= 1 && AllWords(words)
    ensures var s := Join(words, ' ');
            s != "" && !IsSpace(s[0]) && !IsSpace(s[|s| - 1]) && NoLineBreak(s)
  {
    var w := words[0];
    assert !IsSpace(w[0]) && !IsSpace(w[|w| - 1]);
    assert forall i :: 0 <= i < |w| ==> !IsSpace(w[i]);
    if |words| > 1 {
      JoinedWords(words[1..]);
      var rest := Join(words[1..], ' ');
      assert Join(words, ' ') == w + [' '] + rest;
    }
  }

  /** `text.splitlines()` once the reader has mapped CR and CRLF to LF. */
  function SplitLines(text: string): seq<string>
    decreases |text|
  {
    if text == "" then []
    else
      var n := LineLength(text);
      [text[..n]] + SplitLines(if n < |text| then text[n + 1..] else "")
  }

  function LineLength(text: string): (n: nat)
    ensures n <= |text|
    ensures forall i :: 0 <= i < n ==> !IsLineBreak(text[i])
    ensures n < |text| ==> IsLineBreak(text[n])
  {
    if text == "" || IsLineBreak(text[0]) then 0 else 1 + LineLength(text[1..])
  }

  function Unlines(lines: seq<string>): string {
    if lines == [] then "" else lines[0] + "\n" + Unlines(lines[1..])
  }

  lemma {:induction false} LineLengthOf(line: string, rest: string)
    requires NoLineBreak(line) && rest != "" && IsLineBreak(rest[0])
    ensures LineLength(line + rest) == |line|
  {
    if line == "" {
      assert line + rest == rest;
    } else {
      assert (line + rest)[1..] == line[1..] + rest;
      LineLengthOf(line[1..], rest);
    }
  }

  lemma {:induction false} SplitUnlines(lines: seq<string>)
    requires forall k :: 0 <= k < |lines| ==> NoLineBreak(lines[k])
    ensures SplitLines(Unlines(lines)) == lines
  {
    if lines != [] {
      var l, rest := lines[0], Unlines(lines[1..]);
      var text := l + "\n" + rest;
      SplitUnlines(lines[1..]);
      assert text == l + ("\n" + rest);
      LineLengthOf(l, "\n" + rest);
      assert text[|l| + 1..] == rest;
      assert text[..|l|] == l;
    }
  }

  /** Each line break ends a line, and the rest is split likewise. */
  lemma {:induction false} LineEnds(line: string, c: char, rest: string)
    requires NoLineBreak(line) && IsLineBreak(c)
    ensures SplitLines(line + [c] + rest) == [line] + SplitLines(rest)
    ensures line != "" ==> SplitLines(line) == [line]
  {
    var text := line + [c] + rest;
    assert text == line + ([c] + rest) && text[|line| + 1..] == rest && text[..|line|] == line;
    LineLengthOf(line, [c] + rest);
    assert LineLength(line) == |line|;
    assert line[..|line|] == line;
  }

  // ----- decimal numbers

  predicate IsDigit(c: char) {
    '0' <= c <= '9'
  }

  predicate IsDigits(s: string) {
    s != "" && forall i :: 0 <= i < |s| ==> IsDigit(s[i])
  }

  function Number(s: string): nat
    requires s == "" || IsDigits(s)
  {
    if s == "" then 0 else Number(s[..|s| - 1]) * 10 + (s[|s| - 1] - '0') as nat
  }

  function Digit(n: nat): char
    requires n < 10
  {
    '0' + n as char
  }

  function Digits(n: nat): string {
    if n < 10 then [Digit(n)] else Digits(n / 10) + [Digit(n % 10)]
  }

  /** Decimal notation: the last digit is the remainder. */
  lemma {:induction false} DigitsOf(n: nat, d: nat)
    requires d < 10
    ensures Digits(d) == ["0123456789"[d]] && (n > 0 ==> Digits(10 * n + d) == Digits(n) + ["0123456789"[d]])
  {
  }

  lemma {:induction false} NumberOfDigits(n: nat)
    ensures IsDigits(Digits(n)) && Number(Digits(n)) == n
    ensures n > 0 ==> Digits(n)[0] != '0'
  {
    if n < 10 {
      assert Digits(n)[..0] == "";
    } else {
      NumberOfDigits(n / 10);
      assert Digits(n)[..|Digits(n)| - 1] == Digits(n / 10);
    }
  }

  // ----- the order of strings by code point

  predicate StrLeq(a: string, b: string) {
    a == "" || (b != "" && (a[0] < b[0] || (a[0] == b[0] && StrLeq(a[1..], b[1..]))))
  }

  /** The first difference, with the smaller code point in `a`. */
  predicate SmallerAt(a: string, b: string, k: int) {
    0 <= k < |a| && k < |b| && a[..k] == b[..k] && a[k] < b[k]
  }

  lemma {:induction false} SmallerTail(a: string, b: string, k: nat)
    requires a != "" && b != "" && a[0] == b[0]
    ensures SmallerAt(a, b, k + 1) <==> SmallerAt(a[1..], b[1..], k)
  {
    if k + 1 <= |a| && k + 1 <= |b| {
      assert a[..k + 1] == [a[0]] + a[1..][..k] && b[..k + 1] == [b[0]] + b[1..][..k];
      assert a[..k + 1] == b[..k + 1] ==> a[..k + 1][1..] == b[..k + 1][1..];
    }
  }

  /** Python's order of strings: a prefix comes first, and otherwise the code points at
      the first difference decide. */
  lemma {:induction false} StrLeqIff(a: string, b: string)
    ensures StrLeq(a, b) <==> a <= b || exists k :: SmallerAt(a, b, k)
  {
    if a != "" && b != "" && a[0] == b[0] {
      StrLeqIff(a[1..], b[1..]);
      assert a == [a[0]] + a[1..] && b == [b[0]] + b[1..];
      if k :| SmallerAt(a, b, k) { SmallerTail(a, b, k - 1); }
      if k :| SmallerAt(a[1..], b[1..], k) { SmallerTail(a, b, k); }
    } else if a != "" && b != "" {
      assert SmallerAt(a, b, 0) <==> a[0] < b[0];
      forall k | k > 0 ensures !SmallerAt(a, b, k) { assert k <= |a| && k <= |b| ==> a[..k][0] != b[..k][0]; }
    }
  }

  lemma {:induction false} StrLeqTotal(a: string, b: string)
    ensures StrLeq(a, b) || StrLeq(b, a)
  {
    if a != "" && b != "" { StrLeqTotal(a[1..], b[1..]); }
  }

  lemma {:induction false} StrLeqAntisymmetric(a: string, b: string)
    requires StrLeq(a, b) && StrLeq(b, a)
    ensures a == b
  {
    if a != "" {
      StrLeqAntisymmetric(a[1..], b[1..]);
      assert a == [a[0]] + a[1..] && b == [b[0]] + b[1..];
    }
  }

  lemma {:induction false} StrLeqTransitive(a: string, b: string, c: string)
    requires StrLeq(a, b) && StrLeq(b, c)
    ensures StrLeq(a, c)
  {
    if a != "" && a[0] == b[0] == c[0] { StrLeqTransitive(a[1..], b[1..], c[1..]); }
  }
}
