/** An ACL filter is matched against the text of a subscription filter: when does it
    then match everything that section 4.7 of MQTT Version 5.0 delivers? */
module Subscriptions {
  import opened Strings
  import opened TopicRegex
  import opened TopicFilter

  /** 4.7.1 and 4.7.3: a topic name has a character and no wildcards; no newline here. */
  predicate TopicName(topic: string) {
    topic != "" && '#' !in topic && '+' !in topic && NoNewline(topic)
  }

  predicate Delivers(sub: string, topic: string) {
    Section47(Split(sub, '/'), Split(topic, '/'))
  }

  /** 4.7.1.2 and 4.7.1.3: a wildcard is a whole level, and `#` the last one. */
  ghost predicate WellFormed(levels: seq<string>) {
    && HashOnlyLast(levels)
    && forall i :: 0 <= i < |levels| ==>
         ('#' in levels[i] ==> levels[i] == "#") && ('+' in levels[i] ==> levels[i] == "+")
  }

  predicate PlusFacesPlus(acls: seq<string>, subs: seq<string>) {
    exists i :: 0 <= i < |acls| && i < |subs| && acls[i] == "+" && subs[i] == "+"
  }

  predicate HashTail(levels: seq<string>) {
    levels != [] && levels[|levels| - 1] == "#"
  }

  /** A final `#` of the subscription is covered by one of the ACL filter. */
  predicate TailCovered(acls: seq<string>, subs: seq<string>) {
    HashTail(subs) ==> HashTail(acls) && |acls| <= |subs|
  }

  // ----- what is covered

  lemma {:induction false} PlusFacesPlusTail(acls: seq<string>, subs: seq<string>)
    requires acls != [] && subs != [] && PlusFacesPlus(acls[1..], subs[1..])
    ensures PlusFacesPlus(acls, subs)
  {
    var i :| 0 <= i < |acls[1..]| && i < |subs[1..]| && acls[1..][i] == "+" && subs[1..][i] == "+";
    assert acls[i + 1] == "+" && subs[i + 1] == "+";
  }

  lemma {:induction false} DeliveredCovered(acls: seq<string>, subs: seq<string>, levels: seq<string>)
    requires HashOnlyLast(acls) && HashOnlyLast(subs) && TailCovered(acls, subs) && !PlusFacesPlus(acls, subs)
    requires LevelsMatch(acls, subs) && Section471(subs, levels) && AllNoNewline(levels)
    ensures LevelsMatch(acls, levels)
  {
    if acls != [] && acls != ["#"] {
      assert subs != ["#"] && levels != [];
      if PlusFacesPlus(acls[1..], subs[1..]) { PlusFacesPlusTail(acls, subs); }
      DeliveredCovered(acls[1..], subs[1..], levels[1..]);
    }
  }

  lemma {:induction false} DeliveryCovered(acl: string, sub: string, topic: string)
    requires HashOnlyLast(Split(acl, '/')) && HashOnlyLast(Split(sub, '/'))
    requires FilterMatches(acl, sub) && NoNewline(sub)
    requires TailCovered(Split(acl, '/'), Split(sub, '/'))
    requires PlusFacesPlus(Split(acl, '/'), Split(sub, '/')) ==> sub == "+"
    requires TopicName(topic) && Delivers(sub, topic)
    ensures FilterMatches(acl, topic)
  {
    var acls, subs, levels := Split(acl, '/'), Split(sub, '/'), Split(topic, '/');
    assert !EndsInNewline(sub);
    NoNewlineInLevels(topic);
    SplitKeepsDollar(sub);
    SplitKeepsDollar(topic);
    if sub == "+" {
      SplitWithoutSep(sub, '/');
      OneLevel(topic);
      LevelsCovered(acls, subs, levels);
    } else {
      DeliveredCovered(acls, subs, levels);
    }
  }

  lemma {:induction false} OneLevel(topic: string)
    requires Section471(["+"], Split(topic, '/'))
    ensures Split(topic, '/') == [topic]
  {
    var levels := Split(topic, '/');
    assert ["+"][1..] == [] && |levels| == 1;
    JoinSplit(topic, '/');
  }

  // ----- what escapes

  /** The levels with nothing in place of a wildcard. */
  function Blanked(levels: seq<string>): seq<string> {
    seq(|levels|, i requires 0 <= i < |levels| => if levels[i] == "+" || levels[i] == "#" then "" else levels[i])
  }

  lemma {:induction false} BlankedIsDelivered(subs: seq<string>, more: seq<string>)
    requires HashOnlyLast(subs) && (more != [] ==> HashTail(subs))
    ensures Section471(subs, Blanked(subs) + more)
  {
    if subs != [] && subs != ["#"] {
      BlankedIsDelivered(subs[1..], more);
      assert (Blanked(subs) + more)[1..] == Blanked(subs[1..]) + more;
    }
  }

  /** How many levels an ACL filter has that matches the text of a subscription, and
      what its `+` may face. */
  lemma {:induction false} MatchedText(acls: seq<string>, subs: seq<string>)
    requires HashOnlyLast(acls) && LevelsMatch(acls, subs)
    ensures if HashTail(acls) then |acls| <= |subs| + 1 else |acls| == |subs|
    ensures forall i :: 0 <= i < |acls| && i < |subs| && acls[i] != "#" ==> LevelMatches(acls[i], subs[i])
  {
    if acls != [] && acls != ["#"] { MatchedText(acls[1..], subs[1..]); }
  }

  lemma {:induction false} DeliveredLength(acls: seq<string>, levels: seq<string>)
    requires HashOnlyLast(acls) && !HashTail(acls) && Section471(acls, levels)
    ensures |acls| == |levels|
  {
    if acls != [] { DeliveredLength(acls[1..], levels[1..]); }
  }

  lemma {:induction false} CharsOfJoin(levels: seq<string>, c: char)
    requires levels != [] && c != '/'
    requires forall i :: 0 <= i < |levels| ==> '/' !in levels[i] && c !in levels[i]
    ensures c !in Join(levels, '/')
  {
    SplitJoin(levels, '/');
    SplitKeepsChars(Join(levels, '/'), '/', c);
  }

  ghost predicate BlankTopic(sub: string, more: seq<string>, topic: string) {
    TopicName(topic) && Delivers(sub, topic) && Split(topic, '/') == Blanked(Split(sub, '/')) + more
  }

  /** Neither a separator nor a wildcard nor a newline occurs. */
  predicate IsPlain(level: string) {
    forall c :: c in level ==> c != '/' && c != '#' && c != '+' && c != '\n'
  }

  lemma {:induction false} BlankedIsPlain(sub: string, k: nat)
    requires WellFormed(Split(sub, '/')) && NoNewline(sub) && k < |Split(sub, '/')|
    ensures IsPlain(Blanked(Split(sub, '/'))[k])
  {
    SplitParts(sub, '/');
    NoNewlineInLevels(sub);
    assert NoNewline(Split(sub, '/')[k]);
  }

  lemma {:induction false} PlainLevelsJoin(levels: seq<string>)
    requires levels != []
    requires forall i :: 0 <= i < |levels| ==> IsPlain(levels[i])
    ensures Split(Join(levels, '/'), '/') == levels
    ensures forall c :: c in Join(levels, '/') ==> c != '#' && c != '+' && c != '\n'
  {
    SplitJoin(levels, '/');
    CharsOfJoin(levels, '#');
    CharsOfJoin(levels, '+');
    CharsOfJoin(levels, '\n');
  }

  /** Blanked levels, and perhaps one more, are those of a topic that is delivered. */
  lemma {:induction false} BlankedIsTopic(sub: string, more: seq<string>)
    requires WellFormed(Split(sub, '/')) && NoNewline(sub) && (more == [] || more == [""])
    requires if more == [] then sub != "" && sub != "+" && sub != "#" else HashTail(Split(sub, '/'))
    ensures exists topic :: BlankTopic(sub, more, topic)
  {
    var subs := Split(sub, '/');
    var levels := Blanked(subs) + more;
    var topic := Join(levels, '/');
    forall i | 0 <= i < |levels|
      ensures IsPlain(levels[i])
    {
      if i < |subs| { BlankedIsPlain(sub, i); }
    }
    PlainLevelsJoin(levels);
    BlankedIsDelivered(subs, more);
    TopicHasText(sub, more);
    assert BlankTopic(sub, more, topic);
  }

  lemma {:induction false} TopicHasText(sub: string, more: seq<string>)
    requires more == [] || more == [""]
    requires more == [] ==> sub != "" && sub != "+" && sub != "#"
    ensures Join(Blanked(Split(sub, '/')) + more, '/') != ""
  {
    var subs := Split(sub, '/');
    JoinSplit(sub, '/');
    if |subs| == 1 && more == [] { assert Blanked(subs) + more == subs; }
  }

  /** A topic of that kind escapes the ACL filter when a `+` of both stands against the
      empty level, or the ACL filter does not reach so far. */
  lemma {:induction false} BlankedEscapes(acl: string, sub: string, topic: string, more: seq<string>)
    requires HashOnlyLast(Split(acl, '/')) && LevelsMatch(Split(acl, '/'), Split(sub, '/'))
    requires BlankTopic(sub, more, topic)
    requires PlusFacesPlus(Split(acl, '/'), Split(sub, '/'))
             || (more != [] && !TailCovered(Split(acl, '/'), Split(sub, '/')))
    ensures !FilterMatches(acl, topic)
  {
    var acls, subs, levels := Split(acl, '/'), Split(sub, '/'), Split(topic, '/');
    LevelsMatchIsSection471(acls, levels);
    MatchedText(acls, subs);
    if PlusFacesPlus(acls, subs) {
      var i :| 0 <= i < |acls| && i < |subs| && acls[i] == "+" && subs[i] == "+";
      assert acls[i] == "+" && levels[i] == "";
    } else if HashTail(acls) {
      var i := |subs| - 1;
      assert acls[i] == "+" && levels[i] == "";
    } else if Section471(acls, levels) {
      DeliveredLength(acls, levels);
    }
  }

  /** Every topic that the subscription delivers is one that the ACL filter matches. */
  ghost predicate DeliveryIsCovered(acl: string, sub: string) {
    forall topic :: TopicName(topic) && Delivers(sub, topic) ==> FilterMatches(acl, topic)
  }

  /** The exact condition under which checking a subscription filter by its text is
      safe: its final `#` is covered by one of the ACL filter, and no `+` of the one
      stands against a `+` of the other, unless the subscription is `+` alone. */
  lemma {:induction false} DeliveryIsCoveredIff(acl: string, sub: string)
    requires HashOnlyLast(Split(acl, '/')) && WellFormed(Split(sub, '/'))
    requires FilterMatches(acl, sub) && NoNewline(sub)
    ensures var acls, subs := Split(acl, '/'), Split(sub, '/');
            DeliveryIsCovered(acl, sub) <==>
            TailCovered(acls, subs) && (PlusFacesPlus(acls, subs) ==> sub == "+")
  {
    var acls, subs := Split(acl, '/'), Split(sub, '/');
    assert !EndsInNewline(sub);
    if !TailCovered(acls, subs) {
      BlankedIsTopic(sub, [""]);
      var topic :| BlankTopic(sub, [""], topic);
      BlankedEscapes(acl, sub, topic, [""]);
    } else if PlusFacesPlus(acls, subs) && sub != "+" {
      if sub == "#" { SplitWithoutSep(sub, '/'); }
      BlankedIsTopic(sub, []);
      var topic :| BlankTopic(sub, [], topic);
      BlankedEscapes(acl, sub, topic, []);
    } else {
      forall topic | TopicName(topic) && Delivers(sub, topic) ensures FilterMatches(acl, topic) {
        DeliveryCovered(acl, sub, topic);
      }
    }
  }
}
