/** The sliding-window rate limiter that infra/plugins/template.py emits.

    Times are reals. The limiter keeps, for each key, only the hits inside the
    last window it was asked about; the lemmas compare that pruned list with the
    full log of accepted calls. */
module RateLimiting {
  import opened Text

  datatype LimiterError = EmptyKey

  /** One call: the limit and window it passes and the clock reading it sees. */
  datatype Call = Call(key: string, limit: int, window: real, now: real)

  function Cutoff(window: real, now: real): real {
    now - (if window > 0.0 then window else 0.0)
  }

  /** The hits later than `start`, in order. */
  function Prune(hits: seq<real>, start: real): seq<real> {
    if hits == [] then []
    else (if hits[0] > start then [hits[0]] else []) + Prune(hits[1..], start)
  }

  type Hits = map<string, seq<real>>

  function HitsOf(hits: Hits, key: string): seq<real> {
    if key in hits then hits[key] else []
  }

  /** The key's hits after the call, and whether it was let through. */
  function CallKey(hits: seq<real>, c: Call): (seq<real>, bool) {
    if c.limit <= 0 then (hits, false)
    else
      var kept := Prune(hits, Cutoff(c.window, c.now));
      if |kept| >= c.limit then (kept, false) else (kept + [c.now], true)
  }

  function KeyFor(keyPrefix: string, key: string): Result<string, LimiterError> {
    if Strip(key) == "" then Failure(EmptyKey)
    else Success(keyPrefix + ":" + Strip(key))
  }

  /** The limiter's hits after the call, and what it returns or raises. The limit is
      tested before the key, so a non-positive limit refuses even a blank key. */
  function AllowStep(keyPrefix: string, hits: Hits, c: Call): (Hits, Result<bool, LimiterError>) {
    if c.limit <= 0 then (hits, Success(false))
    else match KeyFor(keyPrefix, c.key)
      case Failure(e) => (hits, Failure(e))
      case Success(key) =>
        var (after, answer) := CallKey(HitsOf(hits, key), c);
        (hits[key := after], Success(answer))
  }

  class RateLimiter {
    const keyPrefix: string
    var hits: Hits

    constructor (keyPrefix: string)
      ensures this.keyPrefix == keyPrefix && hits == map[]
    {
      this.keyPrefix := keyPrefix;
      hits := map[];
    }

    method Allow(c: Call) returns (r: Result<bool, LimiterError>)
      modifies this
      ensures (hits, r) == AllowStep(keyPrefix, old(hits), c)
      ensures c.limit <= 0 ==> r == Success(false) && hits == old(hits)
      ensures c.limit > 0 && Strip(c.key) == "" ==> r == Failure(EmptyKey) && hits == old(hits)
      ensures c.limit > 0 && Strip(c.key) != "" ==> r.Success? && (keyPrefix + ":" + Strip(c.key)) in hits
      ensures forall k :: k != keyPrefix + ":" + Strip(c.key) ==> HitsOf(hits, k) == old(HitsOf(hits, k))
    {
      if c.limit <= 0 {
        return Success(false);
      }
      var key := KeyFor(keyPrefix, c.key);
      if key.Failure? {
        return Failure(key.error);
      }
      var windowStart := Cutoff(c.window, c.now);
      var kept := Prune(HitsOf(hits, key.value), windowStart);
      if |kept| >= c.limit {
        hits := hits[key.value := kept];
        return Success(false);
      }
      kept := kept + [c.now];
      hits := hits[key.value := kept];
      r := Success(true);
    }
  }

  // -------------------------------------------------- runs, key by key

  /** What one key's calls leave: the pruned hits and every accepted time. */
  datatype Ledger = Ledger(hits: seq<real>, log: seq<real>)

  function Run(calls: seq<Call>): Ledger {
    if calls == [] then Ledger([], [])
    else
      var before, c := Run(calls[..|calls| - 1]), calls[|calls| - 1];
      var (after, answer) := CallKey(before.hits, c);
      Ledger(after, if answer then before.log + [c.now] else before.log)
  }

  /** All keys at once: the object's hits after the calls. */
  function RunAll(keyPrefix: string, calls: seq<Call>): Hits {
    if calls == [] then map[]
    else AllowStep(keyPrefix, RunAll(keyPrefix, calls[..|calls| - 1]), calls[|calls| - 1]).0
  }

  /** The calls under the trimmed key `id` that reach the window test. */
  function CallsFor(calls: seq<Call>, id: string): seq<Call> {
    if calls == [] then []
    else
      var rest, c := CallsFor(calls[..|calls| - 1], id), calls[|calls| - 1];
      if c.limit > 0 && Strip(c.key) == id then rest + [c] else rest
  }

  /** The times at which the object has let a call under the trimmed key `id` through,
      whatever calls under other keys came in between. */
  function AcceptedTimes(keyPrefix: string, calls: seq<Call>, id: string): seq<real> {
    if calls == [] then []
    else
      var front, c := calls[..|calls| - 1], calls[|calls| - 1];
      var accepted := Strip(c.key) == id && AllowStep(keyPrefix, RunAll(keyPrefix, front), c).1 == Success(true);
      AcceptedTimes(keyPrefix, front, id) + (if accepted then [c.now] else [])
  }

  /** Calls share their hits exactly if their keys are the same but for blanks around
      them. */
  lemma StoredApart(keyPrefix: string, a: string, b: string)
    requires Strip(a) != ""
    ensures KeyFor(keyPrefix, a) == KeyFor(keyPrefix, b) <==> Strip(a) == Strip(b)
    ensures KeyFor(keyPrefix, b) == Success(keyPrefix + ":" + Strip(a)) <==> Strip(a) == Strip(b)
  {
    hide Strip;
    var x, y := keyPrefix + ":" + Strip(a), keyPrefix + ":" + Strip(b);
    assert x[|keyPrefix| + 1..] == Strip(a) && y[|keyPrefix| + 1..] == Strip(b);
  }

  /** Keys do not interact: what the object stores under a key, and which calls under it
      it lets through, come from that key's own calls alone. */
  lemma {:induction false} KeysAreIndependent(keyPrefix: string, calls: seq<Call>, id: string)
    requires id != "" && Trimmed(id)
    ensures HitsOf(RunAll(keyPrefix, calls), keyPrefix + ":" + id) == Run(CallsFor(calls, id)).hits
    ensures AcceptedTimes(keyPrefix, calls, id) == Run(CallsFor(calls, id)).log
  {
    if calls != [] {
      hide Strip, Trimmed, CallKey, KeyFor;
      var rest, c := CallsFor(calls[..|calls| - 1], id), calls[|calls| - 1];
      KeysAreIndependent(keyPrefix, calls[..|calls| - 1], id);
      StripTrims(id);
      StoredApart(keyPrefix, id, c.key);
      RefusedBlank(keyPrefix, c.key);
      if c.limit > 0 && Strip(c.key) == id {
        assert (rest + [c])[..|rest|] == rest;
      }
    }
  }

  lemma RefusedBlank(keyPrefix: string, key: string)
    ensures KeyFor(keyPrefix, key) == if Strip(key) == "" then Failure(EmptyKey)
                                      else Success(keyPrefix + ":" + Strip(key))
  {
  }

  /** The object's next answer under a key is that of the key's own run. */
  lemma AnswerOfOwnRun(keyPrefix: string, calls: seq<Call>, c: Call)
    requires Strip(c.key) != ""
    ensures AllowStep(keyPrefix, RunAll(keyPrefix, calls), c).1
         == Success(CallKey(Run(CallsFor(calls, Strip(c.key))).hits, c).1)
  {
    hide Strip, Trimmed;
    StripTrims(c.key);
    KeysAreIndependent(keyPrefix, calls, Strip(c.key));
  }

  // ---------------------------------------------------- pruning and forgetting

  lemma {:induction false} PruneAppend(a: seq<real>, b: seq<real>, start: real)
    ensures Prune(a + b, start) == Prune(a, start) + Prune(b, start)
  {
    if a == [] {
      assert a + b == b;
    } else {
      assert (a + b)[1..] == a[1..] + b;
      PruneAppend(a[1..], b, start);
    }
  }

  function Max(a: real, b: real): real {
    if a < b then b else a
  }

  /** Pruning twice is pruning at the later cutoff. */
  lemma {:induction false} PruneTwice(hits: seq<real>, a: real, b: real)
    ensures Prune(Prune(hits, a), b) == Prune(hits, Max(a, b))
  {
    if hits != [] {
      PruneTwice(hits[1..], a, b);
      PruneAppend(if hits[0] > a then [hits[0]] else [], Prune(hits[1..], a), b);
    }
  }

  /** A later cutoff drops something exactly if an entry lies in between. */
  lemma {:induction false} PruneLater(log: seq<real>, early: real, late: real)
    requires early <= late
    ensures |Prune(log, late)| <= |Prune(log, early)|
    ensures |Prune(log, late)| == |Prune(log, early)| <==> forall x :: x in log ==> !(early < x <= late)
    ensures |Prune(log, late)| == |Prune(log, early)| ==> Prune(log, late) == Prune(log, early)
  {
    if log != [] {
      PruneLater(log[1..], early, late);
      assert forall x :: x in log <==> x == log[0] || x in log[1..];
      assert log[0] in log;
    }
  }

  predicate Accepted(calls: seq<Call>, k: nat)
    requires k < |calls|
  {
    CallKey(Run(calls[..k]).hits, calls[k]).1
  }

  /** Call `k` was let through after `start`, and call `j` has discarded its hit. */
  predicate Discards(calls: seq<Call>, start: real, k: nat, j: nat)
    requires k < j < |calls|
  {
    Accepted(calls, k) && calls[j].limit > 0 && start < calls[k].now <= WindowStart(calls[j])
  }

  ghost predicate Forgets(calls: seq<Call>, start: real) {
    exists k, j :: 0 <= k < j < |calls| && Discards(calls, start, k, j)
  }

  ghost predicate AcceptedAt(calls: seq<Call>, x: real) {
    exists k :: 0 <= k < |calls| && Accepted(calls, k) && calls[k].now == x
  }

  lemma AcceptedInFront(rest: seq<Call>, c: Call, k: nat)
    requires k <= |rest|
    ensures (rest + [c])[..k] == rest[..k]
    ensures k < |rest| ==> (Accepted(rest + [c], k) <==> Accepted(rest, k))
    ensures k == |rest| ==> (Accepted(rest + [c], k) <==> CallKey(Run(rest).hits, c).1)
  {
    assert (rest + [c])[..k] == rest[..k];
    assert k == |rest| ==> rest[..k] == rest;
  }

  lemma RunStep(rest: seq<Call>, c: Call)
    ensures var before, answer := Run(rest), CallKey(Run(rest).hits, c);
            Run(rest + [c]) == Ledger(answer.0, if answer.1 then before.log + [c.now] else before.log)
  {
    assert (rest + [c])[..|rest|] == rest;
  }

  lemma {:induction false} LogHolds(calls: seq<Call>)
    ensures forall x :: x in Run(calls).log <==> AcceptedAt(calls, x)
  {
    if calls != [] {
      var rest, c := calls[..|calls| - 1], calls[|calls| - 1];
      assert rest + [c] == calls;
      LogHolds(rest);
      RunStep(rest, c);
      AcceptedInFront(rest, c, |rest|);
      forall x ensures x in Run(calls).log <==> AcceptedAt(calls, x) {
        OneMoreAccepted(rest, c, x);
      }
    }
  }

  lemma OneMoreAccepted(rest: seq<Call>, c: Call, x: real)
    ensures AcceptedAt(rest + [c], x) <==> AcceptedAt(rest, x) || (CallKey(Run(rest).hits, c).1 && c.now == x)
  {
    hide Accepted, CallKey, Run;
    var calls := rest + [c];
    AcceptedInFront(rest, c, |rest|);
    if AcceptedAt(rest, x) {
      var k :| 0 <= k < |rest| && Accepted(rest, k) && rest[k].now == x;
      AcceptedInFront(rest, c, k);
      assert Accepted(calls, k) && calls[k].now == x;
    }
    if AcceptedAt(calls, x) {
      var k :| 0 <= k < |calls| && Accepted(calls, k) && calls[k].now == x;
      AcceptedInFront(rest, c, k);
    }
    assert calls[|rest|] == c;
  }

  /** Where the window of a call begins; a window of no length begins at the call. */
  function WindowStart(c: Call): real {
    if c.window > 0.0 then c.now - c.window else c.now
  }

  lemma CutoffIs(c: Call)
    ensures Cutoff(c.window, c.now) == WindowStart(c)
  {
  }

  /** One more call forgets what its own cutoff passes over, and nothing else anew. */
  lemma ForgetsMore(rest: seq<Call>, c: Call, start: real)
    ensures c.limit <= 0 ==> (Forgets(rest + [c], start) <==> Forgets(rest, start))
    ensures c.limit > 0 ==>
      var cutoff := Cutoff(c.window, c.now);
      (Forgets(rest + [c], start)
       <==> Forgets(rest, Max(start, cutoff)) || exists x :: AcceptedAt(rest, x) && start < x <= cutoff)
  {
    hide Accepted, Cutoff, WindowStart;
    CutoffIs(c);
    var calls, cutoff := rest + [c], Cutoff(c.window, c.now);
    if Forgets(calls, start) {
      var k, j :| 0 <= k < j < |calls| && Discards(calls, start, k, j);
      AcceptedInFront(rest, c, k);
      if j == |rest| || (c.limit > 0 && calls[k].now <= cutoff) {
        assert c.limit > 0 && AcceptedAt(rest, rest[k].now);
      } else {
        assert Discards(rest, if c.limit > 0 then Max(start, cutoff) else start, k, j);
      }
    }
    var from := if c.limit > 0 then Max(start, cutoff) else start;
    if Forgets(rest, from) {
      var k, j :| 0 <= k < j < |rest| && Discards(rest, from, k, j);
      AcceptedInFront(rest, c, k);
      assert Discards(calls, start, k, j);
    }
    if x :| c.limit > 0 && AcceptedAt(rest, x) && start < x <= cutoff {
      var k :| 0 <= k < |rest| && Accepted(rest, k) && rest[k].now == x;
      AcceptedInFront(rest, c, k);
      assert Discards(calls, start, k, |rest|);
    }
  }

  /** After `start` the pruned list and the full log of accepted calls are the same if
      and only if no call has discarded a hit later than `start`; otherwise the pruned
      list is shorter. Neither the clock nor the windows are restricted. */
  lemma {:induction false} PrunedAgrees(calls: seq<Call>, start: real)
    ensures var kept, full := Prune(Run(calls).hits, start), Prune(Run(calls).log, start);
            && (kept == full <==> !Forgets(calls, start))
            && (kept != full ==> |kept| < |full|)
  {
    if calls != [] {
      hide Forgets, CallKey, Prune, AcceptedAt;
      var rest, c := calls[..|calls| - 1], calls[|calls| - 1];
      assert rest + [c] == calls;
      ForgetsMore(rest, c, start);
      if c.limit <= 0 {
        PrunedAgrees(rest, start);
        RefusedLeaves(rest, c);
      } else {
        var cutoff := Cutoff(c.window, c.now);
        PrunedAgrees(rest, Max(start, cutoff));
        AfterCall(rest, c, start);
        PruneLater(Run(rest).log, start, Max(start, cutoff));
        LogHolds(rest);
      }
    }
  }

  lemma RefusedLeaves(rest: seq<Call>, c: Call)
    requires c.limit <= 0
    ensures Run(rest + [c]) == Run(rest)
  {
    RunStep(rest, c);
  }

  lemma AfterCall(rest: seq<Call>, c: Call, start: real)
    requires c.limit > 0
    ensures var l, l' := Run(rest), Run(rest + [c]);
            var added := if CallKey(l.hits, c).1 then Prune([c.now], start) else [];
            && Prune(l'.hits, start) == Prune(l.hits, Max(start, Cutoff(c.window, c.now))) + added
            && Prune(l'.log, start) == Prune(l.log, start) + added
  {
    var l, cutoff := Run(rest), Cutoff(c.window, c.now);
    RunStep(rest, c);
    PruneTwice(l.hits, cutoff, start);
    PruneAppend(Prune(l.hits, cutoff), [c.now], start);
    PruneAppend(l.log, [c.now], start);
  }

  // ------------------------------------------ answering as the full log would

  /** The entries of a log after a time. */
  function LaterThan(log: seq<real>, start: real): set<int> {
    set i | 0 <= i < |log| && start < log[i]
  }

  lemma {:induction false} PruneCounts(log: seq<real>, start: real)
    ensures |Prune(log, start)| == |LaterThan(log, start)|
  {
    if log != [] {
      var front, x := log[..|log| - 1], log[|log| - 1];
      assert front + [x] == log;
      PruneCounts(front, start);
      PruneAppend(front, [x], start);
      assert LaterThan(log, start) == LaterThan(front, start) + if start < x then {|front|} else {};
    }
  }

  /** With this limit the stored hits give call `c` the answer of the full log: that
      fewer accepted calls than the limit lie in the window. */
  predicate SameAnswer(l: Ledger, c: Call, limit: int) {
    CallKey(l.hits, c.(limit := limit)).1 <==> limit > 0 && |LaterThan(l.log, WindowStart(c))| < limit
  }

  /** For every limit the answer is that of the full log if and only if no accepted call
      inside the window has been discarded by an earlier call. */
  lemma AnswersAsTheFullLog(calls: seq<Call>, c: Call)
    ensures (forall limit :: SameAnswer(Run(calls), c, limit)) <==> !Forgets(calls, WindowStart(c))
  {
    hide Forgets, Prune, Run, LaterThan;
    CutoffIs(c);
    PrunedAgrees(calls, Cutoff(c.window, c.now));
    PruneCounts(Run(calls).log, Cutoff(c.window, c.now));
    if Forgets(calls, Cutoff(c.window, c.now)) {
      assert !SameAnswer(Run(calls), c, |Prune(Run(calls).log, Cutoff(c.window, c.now))|);
    }
  }

  /** The same for the object, whose calls under different keys are interleaved. */
  lemma ObjectAnswersAsTheFullLog(keyPrefix: string, calls: seq<Call>, c: Call)
    requires Strip(c.key) != ""
    ensures (forall limit :: ObjectSameAnswer(keyPrefix, calls, c, limit))
      <==> !Forgets(CallsFor(calls, Strip(c.key)), WindowStart(c))
  {
    hide Forgets, CallsFor, Run, RunAll, AcceptedTimes, AllowStep, Strip, Trimmed;
    var own := CallsFor(calls, Strip(c.key));
    AnswersAsTheFullLog(own, c);
    StripTrims(c.key);
    KeysAreIndependent(keyPrefix, calls, Strip(c.key));
    forall limit ensures ObjectSameAnswer(keyPrefix, calls, c, limit) <==> SameAnswer(Run(own), c, limit) {
      AnswerOfOwnRun(keyPrefix, calls, c.(limit := limit));
    }
    if forall limit :: ObjectSameAnswer(keyPrefix, calls, c, limit) {
      forall limit ensures SameAnswer(Run(own), c, limit) {
        assert ObjectSameAnswer(keyPrefix, calls, c, limit);
      }
    }
  }

  predicate ObjectSameAnswer(keyPrefix: string, calls: seq<Call>, c: Call, limit: int) {
    AllowStep(keyPrefix, RunAll(keyPrefix, calls), c.(limit := limit)).1
      == Success(limit > 0 && |LaterThan(AcceptedTimes(keyPrefix, calls, Strip(c.key)), WindowStart(c))| < limit)
  }

  /** The windows that the effective calls look back to never move backwards. */
  ghost predicate CutoffsRise(calls: seq<Call>) {
    forall i, j :: 0 <= i < j < |calls| && calls[i].limit > 0 && calls[j].limit > 0 ==>
      Cutoff(calls[i].window, calls[i].now) <= Cutoff(calls[j].window, calls[j].now)
  }

  lemma RisingCutoffsForgetNothing(calls: seq<Call>, c: Call)
    requires CutoffsRise(calls + [c]) && c.limit > 0
    ensures !Forgets(calls, WindowStart(c))
  {
    hide Accepted;
    var all := calls + [c];
    forall j | 0 <= j < |calls| && calls[j].limit > 0
      ensures Cutoff(calls[j].window, calls[j].now) <= Cutoff(c.window, c.now)
    {
      assert all[j] == calls[j] && all[|calls|] == c;
    }
  }

  // --------------------------------------------- clocks that do not go back

  ghost predicate Forward(calls: seq<Call>) {
    && (forall i, j :: 0 <= i < j < |calls| ==> calls[i].now <= calls[j].now)
    && (forall i :: 0 <= i < |calls| && calls[i].limit > 0 ==> calls[i].window > 0.0)
  }

  /** The latest cutoff any effective call has had. */
  function Highest(calls: seq<Call>): Option<real> {
    if calls == [] then None
    else
      var before, c := Highest(calls[..|calls| - 1]), calls[|calls| - 1];
      if c.limit <= 0 then before
      else if before == None then Some(WindowStart(c))
      else Some(Max(before.value, WindowStart(c)))
  }

  lemma {:induction false} HighestIsBefore(calls: seq<Call>, now: real)
    requires Forward(calls) && forall i :: 0 <= i < |calls| ==> calls[i].now <= now
    ensures Highest(calls).Some? ==> Highest(calls).value < now
    ensures Highest(calls).None? ==> Run(calls) == Ledger([], [])
  {
    if calls != [] {
      HighestIsBefore(calls[..|calls| - 1], now);
    }
  }

  /** With a clock that does not go back and windows of some length, what is stored is
      the full log from the latest cutoff on. */
  lemma {:induction false} StoredIsRecentLog(calls: seq<Call>)
    requires Forward(calls)
    ensures Highest(calls).Some? ==> Run(calls).hits == Prune(Run(calls).log, Highest(calls).value)
  {
    if calls != [] {
      hide Prune, Cutoff, WindowStart;
      var rest, c := calls[..|calls| - 1], calls[|calls| - 1];
      CutoffIs(c);
      assert rest + [c] == calls;
      StoredIsRecentLog(rest);
      RunStep(rest, c);
      HighestIsBefore(rest, c.now);
      if c.limit > 0 {
        HighestIsBefore(calls, c.now);
        PruneNothing(c.now, Highest(calls).value, Cutoff(c.window, c.now));
        if Highest(rest).Some? {
          PruneTwice(Run(rest).log, Highest(rest).value, Cutoff(c.window, c.now));
        }
        PruneAppend(Run(rest).log, [c.now], Highest(calls).value);
      }
    }
  }

  lemma PruneNothing(x: real, start: real, cutoff: real)
    requires start < x
    ensures Prune([x], start) == [x] && Prune([], cutoff) == [] && Prune([], start) == []
  {
    assert [x][1..] == [];
  }

  /** Then the next answers are those of the full log, for every limit, if and only if no
      accepted call lies between the call's own cutoff and the latest one so far. */
  lemma AnswersUpToHighest(calls: seq<Call>, c: Call)
    requires Forward(calls) && Highest(calls).Some?
    ensures (forall limit :: SameAnswer(Run(calls), c, limit))
      <==> forall x :: x in Run(calls).log ==> !(WindowStart(c) < x <= Highest(calls).value)
  {
    hide Forgets, SameAnswer, Prune, Cutoff, WindowStart, Highest, Run;
    CutoffIs(c);
    var cutoff, high, l := Cutoff(c.window, c.now), Highest(calls).value, Run(calls);
    AnswersAsTheFullLog(calls, c);
    PrunedAgrees(calls, cutoff);
    StoredIsRecentLog(calls);
    PruneTwice(l.log, high, cutoff);
    PruneLater(l.log, cutoff, Max(high, cutoff));
  }

  /** A later call with a longer window can look back past hits that a shorter
      window has discarded, and is then let through although the log is full. */
  lemma LongerWindowForgets()
    ensures var calls := [Call("k", 1, 10.0, 0.0), Call("k", 1, 1.0, 5.0)];
            var c := Call("k", 2, 10.0, 5.0);
            && CallKey(Run(calls).hits, c).1
            && |LaterThan(Run(calls).log, -5.0)| == 2
            && Forgets(calls, -5.0)
  {
    var a, b := Call("k", 1, 10.0, 0.0), Call("k", 1, 1.0, 5.0);
    assert [a, b][..1] == [a] && [a][..0] == [];
    assert Prune([], -10.0) == [];
    assert Run([a]) == Ledger([0.0], [0.0]);
    assert Prune([0.0], 4.0) == [] by { assert [0.0][1..] == []; }
    assert Run([a, b]) == Ledger([5.0], [0.0, 5.0]);
    assert [0.0, 5.0][1..] == [5.0] && [5.0][1..] == [];
    assert Prune([5.0], -5.0) == [5.0];
    assert Prune([0.0, 5.0], -5.0) == [0.0, 5.0];
    PrunedAgrees([a, b], -5.0);
    PruneCounts([0.0, 5.0], -5.0);
  }

  // ------------------------------------------------------- the window bound

  ghost predicate Steady(calls: seq<Call>, limit: int, window: real) {
    && (forall i :: 0 <= i < |calls| ==> calls[i].limit == limit && calls[i].window == window)
    && (forall i, j :: 0 <= i < j < |calls| ==> calls[i].now <= calls[j].now)
  }

  /** How many entries of `log` lie in the half-open interval (lo, hi]. */
  function CountIn(log: seq<real>, lo: real, hi: real): nat {
    if log == [] then 0
    else (if lo < log[0] <= hi then 1 else 0) + CountIn(log[1..], lo, hi)
  }

  lemma {:induction false} CountInAppend(log: seq<real>, x: real, lo: real, hi: real)
    ensures CountIn(log + [x], lo, hi) == CountIn(log, lo, hi) + (if lo < x <= hi then 1 else 0)
  {
    if log != [] {
      assert (log + [x])[1..] == log[1..] + [x];
      CountInAppend(log[1..], x, lo, hi);
    }
  }

  /** Counting in (lo, hi] needs no more than the entries after an earlier start. */
  lemma {:induction false} CountInPruned(log: seq<real>, lo: real, hi: real, start: real)
    requires start <= lo
    ensures CountIn(log, lo, hi) <= |Prune(log, start)|
  {
    if log != [] {
      CountInPruned(log[1..], lo, hi, start);
    }
  }

  lemma SteadyCutoffsRise(calls: seq<Call>, limit: int, window: real)
    requires Steady(calls, limit, window)
    ensures CutoffsRise(calls)
  {
  }

  lemma SteadyPrefix(calls: seq<Call>, limit: int, window: real)
    requires Steady(calls, limit, window) && calls != []
    ensures Steady(calls[..|calls| - 1], limit, window)
  {
  }

  lemma {:induction false} RunWindowBound(calls: seq<Call>, limit: int, window: real, t: real)
    requires Steady(calls, limit, window)
    ensures CountIn(Run(calls).log, Cutoff(window, t), t) <= (if limit > 0 then limit else 0)
  {
    if calls != [] {
      hide CutoffsRise, Prune, CountIn, CallKey, LaterThan;
      var rest, c := calls[..|calls| - 1], calls[|calls| - 1];
      SteadyPrefix(calls, limit, window);
      RunWindowBound(rest, limit, window, t);
      SteadyCutoffsRise(calls, limit, window);
      assert rest + [c] == calls;
      if limit > 0 {
        RisingCutoffsForgetNothing(rest, c);
        AnswersAsTheFullLog(rest, c);
        CutoffIs(c);
        PruneCounts(Run(rest).log, Cutoff(window, c.now));
        assert SameAnswer(Run(rest), c, limit) && c.(limit := limit) == c;
      }
      CountInAppend(Run(rest).log, c.now, Cutoff(window, t), t);
      if Cutoff(window, t) < c.now <= t {
        CountInPruned(Run(rest).log, Cutoff(window, t), t, Cutoff(window, c.now));
      }
    }
  }

  /** The calls under the trimmed key `id` all pass the same limit and window, and the
      clock does not go back. */
  ghost predicate SteadyKey(calls: seq<Call>, id: string, limit: int, window: real) {
    && (forall i :: 0 <= i < |calls| && Strip(calls[i].key) == id ==>
         calls[i].limit == limit && calls[i].window == window)
    && (forall i, j :: 0 <= i < j < |calls| ==> calls[i].now <= calls[j].now)
  }

  /** The calls under a key are among all the calls. */
  lemma {:induction false} OwnCallsAreCalls(calls: seq<Call>, id: string)
    ensures forall c :: c in CallsFor(calls, id) ==> c in calls && c.limit > 0 && Strip(c.key) == id
  {
    hide Strip;
    if calls != [] {
      var front, c := calls[..|calls| - 1], calls[|calls| - 1];
      OwnCallsAreCalls(front, id);
      assert calls == front + [c];
    }
  }

  lemma {:induction false} OwnCallsAreSteady(calls: seq<Call>, id: string, limit: int, window: real)
    requires SteadyKey(calls, id, limit, window)
    ensures Steady(CallsFor(calls, id), limit, window)
  {
    hide Strip, Steady, SteadyKey;
    if calls == [] {
      NothingIsSteady(limit, window);
    } else {
      var front, c := calls[..|calls| - 1], calls[|calls| - 1];
      SteadyFront(calls, id, limit, window);
      OwnCallsAreSteady(front, id, limit, window);
      OwnCallsAreCalls(front, id);
      if c.limit > 0 && Strip(c.key) == id {
        SteadyOneMore(CallsFor(front, id), c, limit, window);
      }
    }
  }

  lemma NothingIsSteady(limit: int, window: real)
    ensures Steady([], limit, window)
  {
  }

  lemma SteadyFront(calls: seq<Call>, id: string, limit: int, window: real)
    requires SteadyKey(calls, id, limit, window) && calls != []
    ensures var front, c := calls[..|calls| - 1], calls[|calls| - 1];
            && SteadyKey(front, id, limit, window)
            && (Strip(c.key) == id ==> c.limit == limit && c.window == window)
            && forall b :: b in front ==> b.now <= c.now
  {
    hide Strip;
  }

  lemma SteadyOneMore(own: seq<Call>, c: Call, limit: int, window: real)
    requires Steady(own, limit, window) && c.limit == limit && c.window == window
    requires forall b :: b in own ==> b.now <= c.now
    ensures Steady(own + [c], limit, window)
  {
    assert forall i :: 0 <= i < |own| ==> own[i] in own;
  }

  /** The entries of a log after `lo` and up to `hi`. */
  function Within(log: seq<real>, lo: real, hi: real): set<int> {
    set i | 0 <= i < |log| && lo < log[i] <= hi
  }

  lemma {:induction false} CountIsCardinality(log: seq<real>, lo: real, hi: real)
    ensures CountIn(log, lo, hi) == |Within(log, lo, hi)|
  {
    if log != [] {
      var front, x := log[..|log| - 1], log[|log| - 1];
      assert front + [x] == log;
      CountIsCardinality(front, lo, hi);
      CountInAppend(front, x, lo, hi);
      assert Within(log, lo, hi) == Within(front, lo, hi) + if lo < x <= hi then {|front|} else {};
    }
  }

  /** However calls under other keys are interleaved, the window that ends at any time
      `t` holds at most `limit` calls that the object has let through under a key. */
  lemma WindowBound(keyPrefix: string, calls: seq<Call>, id: string, limit: int, window: real, t: real)
    requires id != "" && Trimmed(id) && SteadyKey(calls, id, limit, window)
    ensures |Within(AcceptedTimes(keyPrefix, calls, id), t - window, t)| <= if limit > 0 then limit else 0
  {
    hide AcceptedTimes, CallsFor, Run, RunAll, CountIn, Strip, Trimmed, SteadyKey, Steady;
    var times := AcceptedTimes(keyPrefix, calls, id);
    OwnCallsAreSteady(calls, id, limit, window);
    RunWindowBound(CallsFor(calls, id), limit, window, t);
    KeysAreIndependent(keyPrefix, calls, id);
    if window > 0.0 {
      CountIsCardinality(times, t - window, t);
    } else {
      assert Within(times, t - window, t) == {};
    }
  }
}
