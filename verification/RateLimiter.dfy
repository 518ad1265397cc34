/** The sliding-window rate limiter: the pruned queue decides as counting the whole
    history would, and bounds the calls let through in every window. */
module RateLimiter {

  /** One call of `check`. A call that is turned down raises an exception. */
  datatype Call = Call(key: string, limit: int, window: real, now: real)

  // ----- one key

  /** What is not later than this has left the window. */
  function Cut(c: Call): real {
    c.now - c.window
  }

  /** Drops what has left the window. */
  function Prune(queue: seq<real>, cut: real): seq<real> {
    if queue != [] && queue[0] <= cut then Prune(queue[1..], cut) else queue
  }

  predicate Lets(queue: seq<real>, c: Call) {
    |Prune(queue, Cut(c))| < c.limit
  }

  function After(queue: seq<real>, c: Call): seq<real> {
    var pruned := Prune(queue, Cut(c));
    if Lets(queue, c) then pruned + [c.now] else pruned
  }

  // ----- a run of calls

  /** The queue of a key after a run. */
  function Queue(calls: seq<Call>, key: string): seq<real> {
    if calls == [] then []
    else
      var front, last := Queue(calls[..|calls| - 1], key), calls[|calls| - 1];
      if last.key == key then After(front, last) else front
  }

  /** Whether call `i` of a run is let through. */
  predicate Accepted(calls: seq<Call>, i: nat)
    requires i < |calls|
  {
    Lets(Queue(calls[..i], calls[i].key), calls[i])
  }

  /** The times of all calls for a key that were let through, never pruned. */
  function History(calls: seq<Call>, key: string): seq<real> {
    if calls == [] then []
    else
      var n := |calls| - 1;
      var earlier := History(calls[..n], key);
      if calls[n].key == key && Accepted(calls, n) then earlier + [calls[n].now] else earlier
  }

  /** How many entries are later than `cut`. */
  function CountAfter(times: seq<real>, cut: real): nat {
    if times == [] then 0
    else CountAfter(times[..|times| - 1], cut) + if times[|times| - 1] > cut then 1 else 0
  }

  /** How many entries lie in the half-open interval. */
  function CountIn(times: seq<real>, lo: real, hi: real): nat {
    if times == [] then 0
    else CountIn(times[..|times| - 1], lo, hi) + if lo <= times[|times| - 1] < hi then 1 else 0
  }

  /** The queue of a key; a key that was never checked has an empty one. */
  function Held(attempts: map<string, seq<real>>, key: string): seq<real> {
    if key in attempts then attempts[key] else []
  }

  // ----- the code

  /** `RateLimiter`, with the calls it has seen as a ghost. */
  class Limiter {
    var attempts: map<string, seq<real>>
    ghost var calls: seq<Call>

    ghost predicate Valid()
      reads this
    {
      forall key :: Held(attempts, key) == Queue(calls, key)
    }

    constructor ()
      ensures Valid() && calls == []
    {
      attempts := map[];
      calls := [];
    }

    /** The `popleft` loop of `check`: the oldest entries go, up to the first that is
        still in the window. */
    method DropOld(before: seq<real>, cut: real) returns (queue: seq<real>)
      ensures |queue| <= |before| && queue == before[|before| - |queue|..]
      ensures forall i :: 0 <= i < |before| - |queue| ==> before[i] <= cut
      ensures queue != [] ==> queue[0] > cut
      ensures queue == Prune(before, cut)
    {
      queue := before;
      while queue != [] && queue[0] <= cut
        invariant |queue| <= |before| && queue == before[|before| - |queue|..]
        invariant forall i :: 0 <= i < |before| - |queue| ==> before[i] <= cut
        invariant Prune(before, cut) == Prune(queue, cut)
        decreases |queue|
      {
        queue := queue[1..];
      }
    }

    /** `check`, at the time `now`; false stands for the exception. */
    method Check(key: string, limit: int, window: real, now: real) returns (accepted: bool)
      requires Valid()
      modifies this
      ensures Valid()
      ensures calls == old(calls) + [Call(key, limit, window, now)]
      ensures accepted <==> Accepted(calls, |old(calls)|)
    {
      ghost var before := calls;
      var queue := DropOld(Held(attempts, key), now - window);
      accepted := |queue| < limit;
      if accepted { queue := queue + [now]; }
      ghost var c := Call(key, limit, window, now);
      assert queue == After(Queue(calls, key), c);
      attempts := attempts[key := queue];
      calls := calls + [c];
    }
  }

  // ----- counting instead of pruning

  predicate Ordered(times: seq<real>) {
    forall i, j :: 0 <= i < j < |times| ==> times[i] <= times[j]
  }

  /** The queue is what is left of the history when entries that have left the window
      are dropped. */
  ghost predicate Tail(queue: seq<real>, times: seq<real>, cut: real, d: int) {
    0 <= d <= |times| && queue == times[d..] && forall i :: 0 <= i < d ==> times[i] <= cut
  }

  lemma {:induction false} PruneOrdered(times: seq<real>, cut: real)
    requires Ordered(times)
    ensures |Prune(times, cut)| == CountAfter(times, cut)
  {
    if times != [] && times[0] <= cut {
      PruneOrdered(times[1..], cut);
      CountWithoutFirst(times, cut);
    } else {
      AllAfter(times, cut);
    }
  }

  lemma {:induction false} CountWithoutFirst(times: seq<real>, cut: real)
    requires times != [] && times[0] <= cut
    ensures CountAfter(times, cut) == CountAfter(times[1..], cut)
  {
    if |times| > 1 {
      CountWithoutFirst(times[..|times| - 1], cut);
      assert times[..|times| - 1][1..] == times[1..][..|times| - 2];
    }
  }

  lemma {:induction false} AllAfter(times: seq<real>, cut: real)
    requires Ordered(times) && (times != [] ==> times[0] > cut)
    ensures CountAfter(times, cut) == |times|
  {
    if |times| > 1 {
      assert times[0] <= times[|times| - 1];
      AllAfter(times[..|times| - 1], cut);
    }
  }

  /** Dropping more from a queue that has lost only what is out of the window anyway. */
  lemma {:induction false} PruneTail(queue: seq<real>, times: seq<real>, earlier: real, cut: real, d: int)
    requires Tail(queue, times, earlier, d) && earlier <= cut
    ensures Prune(queue, cut) == Prune(times, cut)
    decreases |times|
  {
    if d > 0 {
      forall i | 0 <= i < d - 1 ensures times[1..][i] <= earlier { assert times[i + 1] <= earlier; }
      assert times[1..][d - 1..] == times[d..];
      PruneTail(queue, times[1..], earlier, cut, d - 1);
    }
  }

  lemma {:induction false} PrunedIsTail(times: seq<real>, cut: real)
    ensures exists d :: Tail(Prune(times, cut), times, cut, d)
  {
    if times != [] && times[0] <= cut {
      PrunedIsTail(times[1..], cut);
      var d :| Tail(Prune(times[1..], cut), times[1..], cut, d);
      forall i | 0 <= i < d + 1 ensures times[i] <= cut { assert i > 0 ==> times[1..][i - 1] == times[i]; }
      assert Tail(Prune(times, cut), times, cut, d + 1);
    } else {
      assert times[0..] == times;
      assert Tail(Prune(times, cut), times, cut, 0);
    }
  }

  // ----- counting the whole history

  predicate InOrder(calls: seq<Call>, key: string, i: int, j: int) {
    0 <= i < j < |calls| && calls[i].key == key == calls[j].key ==>
      calls[i].now <= calls[j].now && Cut(calls[i]) <= Cut(calls[j])
  }

  /** For the calls of the key, neither the clock nor the start of the window goes back. */
  ghost predicate Flowing(calls: seq<Call>, key: string) {
    forall i, j :: 0 <= i < j < |calls| ==> InOrder(calls, key, i, j)
  }

  predicate NotAfter(c: Call, key: string, now: real, cut: real) {
    c.key == key ==> c.now <= now && Cut(c) <= cut
  }

  ghost predicate Earlier(calls: seq<Call>, key: string, now: real, cut: real) {
    forall i :: 0 <= i < |calls| ==> NotAfter(calls[i], key, now, cut)
  }

  lemma {:induction false} FlowingPrefix(calls: seq<Call>, key: string, n: nat)
    requires Flowing(calls, key) && n <= |calls|
    ensures Flowing(calls[..n], key)
    ensures n < |calls| && calls[n].key == key ==> Earlier(calls[..n], key, calls[n].now, Cut(calls[n]))
  {
    forall i, j | 0 <= i < j < n ensures InOrder(calls[..n], key, i, j) { assert InOrder(calls, key, i, j); }
    if n < |calls| && calls[n].key == key {
      forall i | 0 <= i < n ensures NotAfter(calls[..n][i], key, calls[n].now, Cut(calls[n])) {
        assert InOrder(calls, key, i, n);
      }
    }
  }

  lemma {:induction false} HistoryEarlier(calls: seq<Call>, key: string, now: real, cut: real)
    requires Earlier(calls, key, now, cut)
    ensures forall i :: 0 <= i < |History(calls, key)| ==> History(calls, key)[i] <= now
  {
    if calls != [] {
      HistoryEarlier(calls[..|calls| - 1], key, now, cut);
    }
  }

  lemma {:induction false} HistoryOrdered(calls: seq<Call>, key: string)
    requires Flowing(calls, key)
    ensures Ordered(History(calls, key))
  {
    if calls != [] {
      var n := |calls| - 1;
      FlowingPrefix(calls, key, n);
      HistoryOrdered(calls[..n], key);
      if calls[n].key == key { HistoryEarlier(calls[..n], key, calls[n].now, Cut(calls[n])); }
    }
  }

  /** Pruning in two steps is pruning once, with or without an entry in between. */
  lemma {:induction false} PruneTwice(times: seq<real>, earlier: real, cut: real, now: real)
    requires earlier <= cut
    ensures Prune(Prune(times, earlier), cut) == Prune(times, cut)
    ensures Prune(Prune(times, earlier) + [now], cut) == Prune(times + [now], cut)
  {
    PrunedIsTail(times, earlier);
    var d :| Tail(Prune(times, earlier), times, earlier, d);
    PruneTail(Prune(times, earlier), times, earlier, cut, d);
    assert Tail(Prune(times, earlier) + [now], times + [now], earlier, d);
    PruneTail(Prune(times, earlier) + [now], times + [now], earlier, cut, d);
  }

  /** The queue always prunes like the full history. */
  lemma {:induction false} QueueIsTail(calls: seq<Call>, key: string, now: real, cut: real)
    requires Flowing(calls, key) && Earlier(calls, key, now, cut)
    ensures Prune(Queue(calls, key), cut) == Prune(History(calls, key), cut)
  {
    if calls != [] {
      var n := |calls| - 1;
      var front := calls[..n];
      FlowingPrefix(calls, key, n);
      if calls[n].key == key {
        QueueIsTail(front, key, calls[n].now, Cut(calls[n]));
        PruneTwice(History(front, key), Cut(calls[n]), cut, calls[n].now);
      } else {
        QueueIsTail(front, key, now, cut);
      }
    }
  }

  /** The limiter decides as if it counted, over the whole history, the calls let
      through in the window that ends now. */
  lemma {:induction false} DecidesByCounting(calls: seq<Call>, i: nat)
    requires i < |calls| && Flowing(calls, calls[i].key)
    ensures Accepted(calls, i) <==>
            CountAfter(History(calls[..i], calls[i].key), calls[i].now - calls[i].window) < calls[i].limit
  {
    var c := calls[i];
    FlowingPrefix(calls, c.key, i);
    QueueIsTail(calls[..i], c.key, c.now, Cut(c));
    HistoryOrdered(calls[..i], c.key);
    PruneOrdered(History(calls[..i], c.key), Cut(c));
  }

  // ----- the bound, for a key that is always checked with the same rule

  predicate UnderRule(c: Call, key: string, limit: int, window: real) {
    c.key == key ==> c.limit == limit && c.window == window
  }

  /** The clock does not go back for the key, and its rule stays the same. */
  ghost predicate Steady(calls: seq<Call>, key: string, limit: int, window: real) {
    && (forall i, j :: 0 <= i < j < |calls| ==> ClockInOrder(calls, key, i, j))
    && (forall i :: 0 <= i < |calls| ==> UnderRule(calls[i], key, limit, window))
  }

  predicate ClockInOrder(calls: seq<Call>, key: string, i: int, j: int) {
    0 <= i < j < |calls| && calls[i].key == key == calls[j].key ==> calls[i].now <= calls[j].now
  }

  lemma {:induction false} SteadyFlows(calls: seq<Call>, key: string, limit: int, window: real)
    requires Steady(calls, key, limit, window)
    ensures Flowing(calls, key)
  {
    forall i, j | 0 <= i < j < |calls| ensures InOrder(calls, key, i, j) {
      assert ClockInOrder(calls, key, i, j);
      assert UnderRule(calls[i], key, limit, window) && UnderRule(calls[j], key, limit, window);
    }
  }

  lemma {:induction false} SteadyPrefix(calls: seq<Call>, key: string, limit: int, window: real, n: nat)
    requires Steady(calls, key, limit, window) && n <= |calls|
    ensures Steady(calls[..n], key, limit, window)
  {
    forall i, j | 0 <= i < j < n ensures ClockInOrder(calls[..n], key, i, j) {
      assert ClockInOrder(calls, key, i, j);
    }
    forall i | 0 <= i < n ensures UnderRule(calls[..n][i], key, limit, window) {
      assert UnderRule(calls[i], key, limit, window);
    }
  }

  /** Any `limit + 1` consecutive entries span at least a window. */
  ghost predicate Paced(times: seq<real>, limit: nat, window: real) {
    forall i :: 0 <= i && i + limit < |times| ==> times[i + limit] - times[i] >= window
  }

  lemma {:induction false} CountSuffix(times: seq<real>, cut: real, i: nat)
    requires Ordered(times) && i < |times| && times[i] > cut
    ensures CountAfter(times, cut) >= |times| - i
  {
    var n := |times| - 1;
    if i < n {
      assert times[i] <= times[n];
      CountSuffix(times[..n], cut, i);
    }
  }

  lemma {:induction false} PacedAppend(times: seq<real>, limit: nat, window: real, now: real)
    requires Ordered(times) && Paced(times, limit, window) && CountAfter(times, now - window) < limit
    ensures Paced(times + [now], limit, window)
  {
    var i := |times| - limit;
    if 0 <= i < |times| && times[i] > now - window { CountSuffix(times, now - window, i); }
  }

  lemma {:induction false} HistoryPaced(calls: seq<Call>, key: string, limit: nat, window: real)
    requires Steady(calls, key, limit, window)
    ensures Paced(History(calls, key), limit, window)
  {
    if calls != [] {
      var n := |calls| - 1;
      var h := History(calls[..n], key);
      SteadyPrefix(calls, key, limit, window, n);
      HistoryPaced(calls[..n], key, limit, window);
      if calls[n].key == key && Accepted(calls, n) {
        assert UnderRule(calls[n], key, limit, window);
        SteadyFlows(calls, key, limit, window);
        DecidesByCounting(calls, n);
        FlowingPrefix(calls, key, n);
        HistoryOrdered(calls[..n], key);
        PacedAppend(h, limit, window, calls[n].now);
      }
    }
  }

  lemma {:induction false} PacedFar(times: seq<real>, limit: nat, window: real, i: nat, k: nat)
    requires Paced(times, limit, window) && i + k * limit < |times|
    ensures times[i + k * limit] - times[i] >= k as real * window
  {
    if k > 0 {
      var j := i + (k - 1) * limit;
      assert j + limit == i + k * limit;
      PacedFar(times, limit, window, i, k - 1);
      assert times[j + limit] - times[j] >= window;
      assert (k - 1) as real * window + window == k as real * window;
    }
  }

  /** Entries in an interval are consecutive, so their number shows in two of them. */
  lemma {:induction false} CountSpans(times: seq<real>, lo: real, hi: real) returns (i: nat)
    requires Ordered(times) && CountIn(times, lo, hi) > 0
    ensures i + CountIn(times, lo, hi) - 1 < |times|
    ensures lo <= times[i] && times[i + CountIn(times, lo, hi) - 1] < hi
  {
    var n := |times| - 1;
    if CountIn(times[..n], lo, hi) == 0 {
      i := n;
    } else {
      i := CountSpans(times[..n], lo, hi);
      var last := i + CountIn(times[..n], lo, hi) - 1;
      if lo <= times[n] < hi {
        Contiguous(times, lo, hi, n, i, last);
      }
    }
  }

  /** When a later entry is still inside, the entries inside reach up to it. */
  lemma {:induction false} Contiguous(times: seq<real>, lo: real, hi: real, n: nat, i: nat, last: nat)
    requires n == |times| - 1 && Ordered(times) && i <= last < n
    requires last == i + CountIn(times[..n], lo, hi) - 1 && lo <= times[i] && lo <= times[n] < hi
    ensures last == n - 1
  {
    InsideFrom(times[..n], lo, hi, i);
    assert forall j :: i <= j < n ==> times[i] <= times[j] <= times[n];
  }

  lemma {:induction false} InsideFrom(times: seq<real>, lo: real, hi: real, i: nat)
    requires i <= |times| && forall j :: i <= j < |times| ==> lo <= times[j] < hi
    ensures CountIn(times, lo, hi) >= |times| - i
  {
    if i < |times| { InsideFrom(times[..|times| - 1], lo, hi, i); }
  }

  /** More than `k * limit` entries do not fit into `k` windows. */
  lemma {:induction false} TooManySpanMore(times: seq<real>, limit: nat, window: real, lo: real, hi: real, k: nat)
    requires Ordered(times) && Paced(times, limit, window) && CountIn(times, lo, hi) > k * limit
    ensures hi - lo > k as real * window
  {
    var i := CountSpans(times, lo, hi);
    var last := i + CountIn(times, lo, hi) - 1;
    PacedFar(times, limit, window, i, k);
    assert i + k * limit <= last;
    assert times[i + k * limit] <= times[last];
  }

  /** In every half-open interval of `k` windows at most `k * limit` calls of a key
      are let through. */
  lemma {:induction false} RateBound(calls: seq<Call>, key: string, limit: nat, window: real, lo: real, k: nat)
    requires Steady(calls, key, limit, window)
    ensures CountIn(History(calls, key), lo, lo + k as real * window) <= k * limit
  {
    HistoryPaced(calls, key, limit, window);
    SteadyFlows(calls, key, limit, window);
    HistoryOrdered(calls, key);
    if CountIn(History(calls, key), lo, lo + k as real * window) > k * limit {
      TooManySpanMore(History(calls, key), limit, window, lo, lo + k as real * window, k);
    }
  }

  lemma {:induction false} PruneShortens(queue: seq<real>, cut: real)
    ensures |Prune(queue, cut)| <= |queue|
  {
    if queue != [] && queue[0] <= cut { PruneShortens(queue[1..], cut); }
  }

  /** The queue never holds more than `limit` entries. */
  lemma {:induction false} QueueIsBounded(calls: seq<Call>, key: string, limit: nat)
    requires forall i :: 0 <= i < |calls| && calls[i].key == key ==> calls[i].limit <= limit
    ensures |Queue(calls, key)| <= limit
  {
    if calls != [] {
      var n := |calls| - 1;
      QueueIsBounded(calls[..n], key, limit);
      PruneShortens(Queue(calls[..n], key), Cut(calls[n]));
    }
  }

  // ----- keys do not interfere, and refused calls leave no trace

  function Own(calls: seq<Call>, key: string): seq<Call> {
    if calls == [] then []
    else
      var n := |calls| - 1;
      Own(calls[..n], key) + if calls[n].key == key then [calls[n]] else []
  }

  /** The queue and history of a key are those of its own calls alone. */
  lemma {:induction false} KeysDoNotInterfere(calls: seq<Call>, key: string)
    ensures Queue(calls, key) == Queue(Own(calls, key), key)
    ensures History(calls, key) == History(Own(calls, key), key)
  {
    if calls != [] {
      var n := |calls| - 1;
      var own := Own(calls[..n], key);
      KeysDoNotInterfere(calls[..n], key);
      if calls[n].key == key {
        assert Own(calls, key)[..|own|] == own;
      } else {
        assert Own(calls, key) == own;
      }
    }
  }

  /** Two runs with the same history decide the same next call alike. */
  lemma {:induction false} SameNextDecision(a: seq<Call>, b: seq<Call>, key: string)
    requires a != [] && b != [] && a[|a| - 1] == b[|b| - 1]
    requires Flowing(a, key) && Flowing(b, key)
    requires History(a[..|a| - 1], key) == History(b[..|b| - 1], key)
    ensures History(a, key) == History(b, key)
  {
    if a[|a| - 1].key == key {
      DecidesByCounting(a, |a| - 1);
      DecidesByCounting(b, |b| - 1);
    }
  }

  /** The run without its call `i`. */
  function Without(calls: seq<Call>, i: nat): seq<Call>
    requires i < |calls|
  {
    calls[..i] + calls[i + 1..]
  }

  lemma {:induction false} WithoutFront(calls: seq<Call>, i: nat)
    requires i + 1 < |calls|
    ensures var n, rest := |calls| - 1, Without(calls, i);
            rest[..n - 1] == Without(calls[..n], i) && rest[n - 1] == calls[n]
  {
  }

  lemma {:induction false} WithoutFlowing(calls: seq<Call>, i: nat, key: string)
    requires Flowing(calls, key) && i < |calls|
    ensures Flowing(Without(calls, i), key)
  {
    var rest := Without(calls, i);
    forall j, k | 0 <= j < k < |rest| ensures InOrder(rest, key, j, k) {
      assert InOrder(calls, key, if j < i then j else j + 1, if k < i then k else k + 1);
    }
  }

  lemma {:induction false} AcceptedInFront(calls: seq<Call>, i: nat, n: nat)
    requires i < n <= |calls|
    ensures Accepted(calls[..n], i) <==> Accepted(calls, i)
  {
    assert calls[..n][..i] == calls[..i];
  }

  /** Leaving a refused call out of a run changes no history: every later call of the
      key is decided as before. */
  lemma {:induction false} RefusedLeaveNoTrace(calls: seq<Call>, i: nat, key: string)
    requires Flowing(calls, key)
    requires i < |calls| && calls[i].key == key && !Accepted(calls, i)
    ensures History(calls, key) == History(Without(calls, i), key)
    decreases |calls|
  {
    var n := |calls| - 1;
    if i == n {
      assert Without(calls, i) == calls[..n];
    } else {
      AcceptedInFront(calls, i, n);
      FlowingPrefix(calls, key, n);
      RefusedLeaveNoTrace(calls[..n], i, key);
      WithoutFront(calls, i);
      WithoutFlowing(calls, i, key);
      SameNextDecision(calls, Without(calls, i), key);
    }
  }
}
