/** `redact`: what it hides, and that it hides it completely. */
module Redaction {
  import opened Strings
  import opened Json

  const REDACTED := "[REDACTED]"

  const SENSITIVE_KEYS := ["password", "secret", "token", "authorization", "cookie", "private_key", "payload"]

  /** `str.lower` as far as ASCII parts can tell: beside the capital letters, only
      the Kelvin sign has an ASCII lower case that one of the parts contains. */
  function LowerChar(c: char): char {
    if 'A' <= c <= 'Z' then c + ' ' else if c == '\U{212A}' then 'k' else c
  }

  function Lower(s: string): string {
    seq(|s|, i requires 0 <= i < |s| => LowerChar(s[i]))
  }

  predicate IsSensitive(key: string) {
    exists i :: 0 <= i < |SENSITIVE_KEYS| && Contains(Lower(key), SENSITIVE_KEYS[i])
  }

  /** The letters of `part`, each small or capital; the Kelvin sign counts as a `k`. */
  predicate Spells(s: string, part: string) {
    |s| == |part| && forall i :: 0 <= i < |s| ==>
      || s[i] == part[i]
      || ('a' <= part[i] <= 'z' && s[i] as int == part[i] as int - 32)
      || (part[i] == 'k' && s[i] == '\U{212A}')
  }

  predicate SpelledAt(key: string, part: string, i: int) {
    0 <= i && i + |part| <= |key| && Spells(key[i..i + |part|], part)
  }

  lemma {:induction false} LowerSpells(s: string, part: string)
    requires forall i :: 0 <= i < |part| ==> 'a' <= part[i] <= 'z' || part[i] == '_'
    ensures Lower(s) == part <==> Spells(s, part)
  {
    if Spells(s, part) {
      forall i | 0 <= i < |s| ensures Lower(s)[i] == part[i] {}
    }
    if Lower(s) == part {
      forall i | 0 <= i < |s|
        ensures || s[i] == part[i] || ('a' <= part[i] <= 'z' && s[i] as int == part[i] as int - 32)
                || (part[i] == 'k' && s[i] == '\U{212A}')
      {
        assert Lower(s)[i] == LowerChar(s[i]);
      }
    }
  }

  lemma {:induction false} PartFound(key: string, part: string)
    requires forall i :: 0 <= i < |part| ==> 'a' <= part[i] <= 'z' || part[i] == '_'
    ensures Contains(Lower(key), part) <==> exists i :: SpelledAt(key, part, i)
  {
    forall i | 0 <= i && i + |part| <= |key| ensures part <= Lower(key)[i..] <==> SpelledAt(key, part, i) {
      LowerSpells(key[i..i + |part|], part);
      assert Lower(key)[i..][..|part|] == Lower(key[i..i + |part|]);
    }
    if i :| 0 <= i <= |key| && part <= Lower(key)[i..] { assert SpelledAt(key, part, i); }
    if i :| SpelledAt(key, part, i) { assert part <= Lower(key)[i..]; }
  }

  /** A key is hidden exactly when one of the seven words stands in it, in small letters
      or capitals. */
  lemma {:induction false} SensitiveIff(key: string)
    ensures IsSensitive(key) <==>
            exists part, i ::
              && part in {"password", "secret", "token", "authorization", "cookie", "private_key", "payload"}
              && SpelledAt(key, part, i)
  {
    forall k | 0 <= k < |SENSITIVE_KEYS|
      ensures Contains(Lower(key), SENSITIVE_KEYS[k]) <==> exists i :: SpelledAt(key, SENSITIVE_KEYS[k], i)
    {
      PartFound(key, SENSITIVE_KEYS[k]);
    }
    if part, i :| part in {"password", "secret", "token", "authorization", "cookie", "private_key", "payload"}
                  && SpelledAt(key, part, i)
    {
      assert part in SENSITIVE_KEYS;
    }
  }

  function Redact(v: Json): Json {
    match v
    case Arr(items) => Arr(RedactItems(items))
    case Obj(ms) => Obj(RedactMembers(ms))
    case _ => v
  }

  function RedactItems(items: Items): Items {
    match items
    case NoItems => NoItems
    case Item(v, rest) => Item(Redact(v), RedactItems(rest))
  }

  function RedactMembers(ms: Members): Members {
    match ms
    case NoMembers => NoMembers
    case Member(k, v, rest) => Member(k, if IsSensitive(k) then Str(REDACTED) else Redact(v), RedactMembers(rest))
  }

  /** Equal except for what stands under sensitive keys, at any depth. */
  predicate SameButSecrets(v: Json, w: Json) {
    match (v, w)
    case (Arr(a), Arr(b)) => SameItemsButSecrets(a, b)
    case (Obj(a), Obj(b)) => SameMembersButSecrets(a, b)
    case _ => v == w
  }

  predicate SameItemsButSecrets(a: Items, b: Items) {
    match (a, b)
    case (Item(v, r), Item(w, s)) => SameButSecrets(v, w) && SameItemsButSecrets(r, s)
    case _ => a == b
  }

  predicate SameMembersButSecrets(a: Members, b: Members) {
    match (a, b)
    case (Member(k, v, r), Member(l, w, s)) =>
      k == l && (IsSensitive(k) || SameButSecrets(v, w)) && SameMembersButSecrets(r, s)
    case _ => a == b
  }

  /** Redaction forgets exactly the secrets: two values redact to the same value if
      and only if they differ beneath sensitive keys at most. */
  lemma {:induction false} RedactHidesExactlySecrets(v: Json, w: Json)
    ensures Redact(v) == Redact(w) <==> SameButSecrets(v, w)
    decreases v
  {
    match (v, w)
    case (Arr(a), Arr(b)) => RedactItemsHides(a, b);
    case (Obj(a), Obj(b)) => RedactMembersHides(a, b);
    case _ =>
  }

  lemma {:induction false} RedactItemsHides(a: Items, b: Items)
    ensures RedactItems(a) == RedactItems(b) <==> SameItemsButSecrets(a, b)
    decreases a
  {
    if a.Item? && b.Item? {
      RedactHidesExactlySecrets(a.head, b.head);
      RedactItemsHides(a.tail, b.tail);
    }
  }

  lemma {:induction false} RedactMembersHides(a: Members, b: Members)
    ensures RedactMembers(a) == RedactMembers(b) <==> SameMembersButSecrets(a, b)
    decreases a
  {
    if a.Member? && b.Member? {
      RedactHidesExactlySecrets(a.value, b.value);
      RedactMembersHides(a.rest, b.rest);
    }
  }

  lemma {:induction false} RedactIdempotent(v: Json)
    ensures Redact(Redact(v)) == Redact(v)
    decreases v
  {
    match v
    case Arr(items) => RedactItemsIdempotent(items);
    case Obj(ms) => RedactMembersIdempotent(ms);
    case _ =>
  }

  lemma {:induction false} RedactItemsIdempotent(items: Items)
    ensures RedactItems(RedactItems(items)) == RedactItems(items)
    decreases items
  {
    if items.Item? { RedactIdempotent(items.head); RedactItemsIdempotent(items.tail); }
  }

  lemma {:induction false} RedactMembersIdempotent(ms: Members)
    ensures RedactMembers(RedactMembers(ms)) == RedactMembers(ms)
    decreases ms
  {
    if ms.Member? { RedactIdempotent(ms.value); RedactMembersIdempotent(ms.rest); }
  }

  function Keys(ms: Members): seq<string> {
    match ms case NoMembers => [] case Member(k, _, rest) => [k] + Keys(rest)
  }

  /** The members keep their keys and order; each value is hidden or redacted. */
  lemma {:induction false} RedactKeepsKeys(ms: Members, k: string)
    ensures Keys(RedactMembers(ms)) == Keys(ms)
    ensures HasKey(RedactMembers(ms), k) <==> HasKey(ms, k)
    ensures HasKey(ms, k) ==>
              Get(RedactMembers(ms), k) == if IsSensitive(k) then Str("[REDACTED]") else Redact(Get(ms, k))
  {
    if ms.Member? { RedactKeepsKeys(ms.rest, k); }
  }

  function Length(items: Items): nat {
    match items case NoItems => 0 case Item(_, rest) => 1 + Length(rest)
  }

  function At(items: Items, i: nat): Json
    requires i < Length(items)
  {
    if i == 0 then items.head else At(items.tail, i - 1)
  }

  /** Lists keep their length, and each element is redacted where it stands. */
  lemma {:induction false} RedactKeepsLength(items: Items)
    ensures Length(RedactItems(items)) == Length(items)
    ensures forall i :: 0 <= i < Length(items) ==> At(RedactItems(items), i) == Redact(At(items, i))
  {
    if items.Item? { RedactKeepsLength(items.tail); }
  }

  /** A redacted dictionary still has each key once. */
  lemma {:induction false} RedactProper(v: Json)
    requires Proper(v)
    ensures Proper(Redact(v))
    decreases v
  {
    match v
    case Arr(items) => RedactItemsProper(items);
    case Obj(ms) => RedactMembersProper(ms);
    case _ =>
  }

  lemma {:induction false} RedactItemsProper(items: Items)
    requires ProperItems(items)
    ensures ProperItems(RedactItems(items))
    decreases items
  {
    if items.Item? { RedactProper(items.head); RedactItemsProper(items.tail); }
  }

  lemma {:induction false} RedactMembersProper(ms: Members)
    requires ProperMembers(ms)
    ensures ProperMembers(RedactMembers(ms))
    decreases ms
  {
    if ms.Member? {
      RedactProper(ms.value);
      RedactMembersProper(ms.rest);
      RedactKeepsKeys(ms.rest, ms.key);
    }
  }

  // ----- redaction and the order of keys

  lemma {:induction false} InsertRedacted(key: string, value: Json, ms: Members)
    ensures RedactMembers(InsertMember(key, value, ms)) ==
            InsertMember(key, if IsSensitive(key) then Str(REDACTED) else Redact(value), RedactMembers(ms))
  {
    if ms.Member? { InsertRedacted(key, value, ms.rest); }
  }

  /** Redacting and sorting the keys can be exchanged. */
  lemma {:induction false} RedactedCanon(v: Json)
    ensures Canon(Redact(v)) == Redact(Canon(v))
    decreases v
  {
    match v
    case Arr(items) => RedactedCanonItems(items);
    case Obj(ms) => RedactedCanonMembers(ms);
    case _ =>
  }

  lemma {:induction false} RedactedCanonItems(items: Items)
    ensures CanonItems(RedactItems(items)) == RedactItems(CanonItems(items))
    decreases items
  {
    if items.Item? {
      RedactedCanon(items.head);
      RedactedCanonItems(items.tail);
    }
  }

  lemma {:induction false} RedactedCanonMembers(ms: Members)
    ensures CanonMembers(RedactMembers(ms)) == RedactMembers(CanonMembers(ms))
    decreases ms
  {
    if ms.Member? {
      RedactedCanon(ms.value);
      RedactedCanonMembers(ms.rest);
      InsertRedacted(ms.key, Canon(ms.value), CanonMembers(ms.rest));
    }
  }

  /** The stored text shows everything but the secrets: it is the same exactly for
      values that, keys in order, differ beneath sensitive keys at most. */
  lemma {:induction false} TextHidesExactlySecrets(v: Json, w: Json)
    requires Proper(v) && Proper(w)
    ensures Dumps(Redact(v)) == Dumps(Redact(w)) <==> SameButSecrets(Canon(v), Canon(w))
  {
    RedactProper(v);
    RedactProper(w);
    DumpsInjective(Redact(v), Redact(w));
    RedactedCanon(v);
    RedactedCanon(w);
    RedactHidesExactlySecrets(Canon(v), Canon(w));
  }
}
