/** The retry loop of `HttpClient.request` in infra/http/client.py. Delays are reals,
    and what each attempt meets is a parameter; sleeping does not raise. */
module HttpRetry {
  import opened Text

  /** How an attempt ends. One that ends with an exception may have received and counted
      a response before, if the exception comes from closing the response. */
  datatype Reply =
    | Response(status: int)
    | Timeout(answered: bool)
    | ClientError(answered: bool)
    | OtherError(answered: bool)

  predicate Answered(reply: Reply) {
    reply.Response? || reply.answered
  }

  /** Counted as a response and as an error. */
  predicate CountedTwice(reply: Reply) {
    !reply.Response? && reply.answered
  }

  datatype HttpError = ClientClosed | TimedOut | Failed | Unexpected

  datatype RetryConfig = RetryConfig(
    maxAttempts: int,
    baseDelay: real,
    statusCodes: set<int>,
    methods: set<string>,
    allMethods: bool)

  /** What the configuration's constructor insists on. */
  predicate ValidConfig(c: RetryConfig) {
    c.maxAttempts >= 1 && c.baseDelay >= 0.0
  }

  datatype Counters = Counters(requests: nat, attempts: nat, responses: nat, errors: nat, retries: nat)

  function UpperChar(c: char): char {
    if 'a' <= c <= 'z' then c - 'a' + 'A' else c
  }

  /** `str.upper` on method names, which are ASCII. */
  function Upper(s: string): string {
    seq(|s|, i requires 0 <= i < |s| => UpperChar(s[i]))
  }

  predicate CanRetryMethod(m: string, config: Option<RetryConfig>) {
    config.Some? && (config.value.allMethods || Upper(m) in config.value.methods)
  }

  /** Attempt number `attempt` (from 1) is followed by another when it met `reply`. */
  predicate Retries(m: string, config: Option<RetryConfig>, reply: Reply, attempt: int) {
    && config.Some? && attempt < config.value.maxAttempts && CanRetryMethod(m, config)
    && match reply
       case Response(status) => status in config.value.statusCodes
       case Timeout(_) => true
       case ClientError(_) => true
       case OtherError(_) => false
  }

  function Pow2(n: nat): nat {
    if n == 0 then 1 else 2 * Pow2(n - 1)
  }

  /** The delay after attempt number `attempt`. */
  function DelayAfter(base: real, attempt: nat): real
    requires attempt >= 1
  {
    base * Pow2(attempt - 1) as real
  }

  /** base * (2^retries - 1). */
  function Backoff(base: real, retries: nat): real {
    base * (Pow2(retries) - 1) as real
  }

  function Sum(s: seq<real>): real {
    if s == [] then 0.0 else Sum(s[..|s| - 1]) + s[|s| - 1]
  }

  /** How many of the first `n` attempts have received a response. */
  function Responses(replies: nat -> Reply, n: nat): nat {
    if n == 0 then 0 else Responses(replies, n - 1) + (if Answered(replies(n - 1)) then 1 else 0)
  }

  /** How many of them have ended with an exception. */
  function Errors(replies: nat -> Reply, n: nat): nat {
    if n == 0 then 0 else Errors(replies, n - 1) + (if replies(n - 1).Response? then 0 else 1)
  }

  lemma OneMoreReply(replies: nat -> Reply, n: nat)
    ensures Responses(replies, n + 1) == Responses(replies, n) + (if Answered(replies(n)) then 1 else 0)
    ensures Errors(replies, n + 1) == Errors(replies, n) + (if replies(n).Response? then 0 else 1)
    ensures Responses(replies, 0) == 0 == Errors(replies, 0)
  {
  }

  /** The same name but for small letters, which `str.upper` turns into capitals. */
  predicate SameName(m: string, name: string) {
    && |m| == |name|
    && forall i :: 0 <= i < |m| ==>
       if 97 <= m[i] as int <= 122 then name[i] as int == m[i] as int - 32 else name[i] == m[i]
  }

  /** The policy allows another attempt: attempts are left, the method is one of those
      that may be repeated, and what was met is a time-out, an error of the client
      library or a response with one of the listed status codes. */
  ghost predicate MayTryAgain(m: string, c: RetryConfig, reply: Reply, attempt: int) {
    && attempt < c.maxAttempts
    && (c.allMethods || exists name :: name in c.methods && SameName(m, name))
    && (reply.Timeout? || reply.ClientError? || exists status :: status in c.statusCodes && reply == Response(status))
  }

  lemma UpperIs(m: string, name: string)
    ensures SameName(m, name) <==> name == Upper(m)
  {
    if SameName(m, name) {
      assert name == Upper(m);
    }
  }

  lemma RetriesExactly(m: string, config: Option<RetryConfig>, reply: Reply, attempt: int)
    ensures Retries(m, config, reply, attempt)
      <==> config.Some? && MayTryAgain(m, config.value, reply, attempt)
  {
    hide Upper, SameName;
    UpperIs(m, Upper(m));
    if config.Some? {
      forall name | name in config.value.methods && SameName(m, name) ensures name == Upper(m) {
        UpperIs(m, name);
      }
    }
  }

  /** Which attempts are counted as responses, and which as errors. */
  ghost function AnsweredAmong(replies: nat -> Reply, n: nat): set<nat> {
    set k: nat | k < n && (replies(k).Response? || replies(k).answered)
  }

  ghost function RaisedAmong(replies: nat -> Reply, n: nat): set<nat> {
    set k: nat | k < n && (replies(k).Timeout? || replies(k).ClientError? || replies(k).OtherError?)
  }

  lemma OneMoreAnswered(replies: nat -> Reply, n: nat)
    ensures |AnsweredAmong(replies, n + 1)| == |AnsweredAmong(replies, n)| + if Answered(replies(n)) then 1 else 0
  {
    assert AnsweredAmong(replies, n + 1) == AnsweredAmong(replies, n) + if Answered(replies(n)) then {n} else {};
  }

  lemma OneMoreRaised(replies: nat -> Reply, n: nat)
    ensures |RaisedAmong(replies, n + 1)| == |RaisedAmong(replies, n)| + if replies(n).Response? then 0 else 1
  {
    assert RaisedAmong(replies, n + 1) == RaisedAmong(replies, n) + if replies(n).Response? then {} else {n};
  }

  lemma {:induction false} CountsAre(replies: nat -> Reply, n: nat)
    ensures Responses(replies, n) == |AnsweredAmong(replies, n)|
    ensures Errors(replies, n) == |RaisedAmong(replies, n)|
  {
    if n > 0 {
      CountsAre(replies, n - 1);
      OneMoreAnswered(replies, n - 1);
      OneMoreRaised(replies, n - 1);
      hide AnsweredAmong, RaisedAmong;
    }
  }

  /** One sleep for every repeated attempt, the first of the base delay and each of the
      others twice as long as the one before. */
  ghost predicate Doubles(slept: seq<real>, base: real, retries: nat) {
    if base <= 0.0 then slept == []
    else
      && |slept| == retries
      && (retries > 0 ==> slept[0] == base)
      && forall i :: 0 < i < retries ==> slept[i] == 2.0 * slept[i - 1]
  }

  ghost predicate SleepsAre(slept: seq<real>, base: real, retries: nat) {
    if base <= 0.0 then slept == []
    else |slept| == retries && forall i :: 0 <= i < retries ==> slept[i] == DelayAfter(base, i + 1)
  }

  lemma SleepsDouble(slept: seq<real>, base: real, retries: nat)
    requires SleepsAre(slept, base, retries)
    ensures Doubles(slept, base, retries)
  {
    forall i | 0 < i < retries && base > 0.0 ensures slept[i] == 2.0 * slept[i - 1] {
      assert slept[i] == DelayAfter(base, i + 1) && slept[i - 1] == DelayAfter(base, i);
      Twice(base, i);
    }
  }

  lemma Twice(base: real, attempt: nat)
    requires attempt >= 1
    ensures DelayAfter(base, attempt + 1) == 2.0 * DelayAfter(base, attempt)
  {
    var p := Pow2(attempt - 1) as real;
    assert Pow2(attempt) as real == 2.0 * p;
    assert base * (2.0 * p) == 2.0 * (base * p);
  }

  lemma OneMoreSleep(slept: seq<real>, base: real, attempt: nat)
    requires attempt >= 1 && SleepsAre(slept, base, attempt - 1)
    ensures var delay := DelayAfter(base, attempt);
            SleepsAre(if delay > 0.0 then slept + [delay] else slept, base, attempt)
  {
    PowerIsPositive(attempt - 1);
    var p := Pow2(attempt - 1) as real;
    assert base > 0.0 ==> base * p > 0.0;
    assert base <= 0.0 ==> base * p <= 0.0;
  }

  lemma {:induction false} PowerIsPositive(n: nat)
    ensures Pow2(n) >= 1
  {
    if n > 0 {
      PowerIsPositive(n - 1);
    }
  }

  /** Every attempt is counted as a response or as an error, and those that are counted
      as both are the only ones that spoil the sum. */
  lemma {:induction false} AttemptsAreCounted(replies: nat -> Reply, n: nat)
    ensures Responses(replies, n) + Errors(replies, n) >= n
    ensures Responses(replies, n) + Errors(replies, n) == n <==> forall k: nat :: k < n ==> !CountedTwice(replies(k))
  {
    if n > 0 {
      AttemptsAreCounted(replies, n - 1);
    }
  }

  function FinalResult(reply: Reply): Result<int, HttpError> {
    match reply
    case Response(status) => Success(status)
    case Timeout(_) => Failure(TimedOut)
    case ClientError(_) => Failure(Failed)
    case OtherError(_) => Failure(Unexpected)
  }

  /** The response of the last attempt is returned, and its exception becomes the error. */
  predicate EndsAs(r: Result<int, HttpError>, last: Reply) {
    && (last.Response? ==> r == Success(last.status))
    && (last.Timeout? ==> r == Failure(TimedOut))
    && (last.ClientError? ==> r == Failure(Failed))
    && (last.OtherError? ==> r == Failure(Unexpected))
  }

  lemma FinalIsEnd(reply: Reply)
    ensures EndsAs(FinalResult(reply), reply)
  {
  }

  lemma AttemptsLeft(m: string, c: RetryConfig, reply: Reply, attempt: int)
    requires MayTryAgain(m, c, reply, attempt)
    ensures attempt < c.maxAttempts && !reply.OtherError?
  {
  }

  class HttpClient {
    var closed: bool
    var counters: Counters

    constructor ()
      ensures !closed && counters == Counters(0, 0, 0, 0, 0)
    {
      closed, counters := false, Counters(0, 0, 0, 0, 0);
    }

    /** `replies(k)` is what attempt k + 1 meets; `slept` lists the sleeps requested.
        The attempts are exactly those up to the first that is not retried; the
        counters add up; and the sleeps follow the doubling back-off. */
    method Request(m: string, config: Option<RetryConfig>, replies: nat -> Reply)
      returns (r: Result<int, HttpError>, attempts: nat, slept: seq<real>)
      requires config.Some? ==> ValidConfig(config.value)
      modifies this
      ensures closed == old(closed)
      ensures closed ==> r == Failure(ClientClosed) && attempts == 0 && slept == [] && counters == old(counters)
      ensures !closed ==> attempts >= 1 && EndsAs(r, replies(attempts - 1))
      ensures !closed && config.Some? ==> !MayTryAgain(m, config.value, replies(attempts - 1), attempts)
      ensures config.Some? ==> forall k: nat :: k + 1 < attempts ==> MayTryAgain(m, config.value, replies(k), k + 1)
      ensures config.None? ==> attempts <= 1
      ensures config.Some? ==> attempts <= config.value.maxAttempts
      ensures !closed ==> counters == Counters(
        old(counters).requests + 1,
        old(counters).attempts + attempts,
        old(counters).responses + |AnsweredAmong(replies, attempts)|,
        old(counters).errors + |RaisedAmong(replies, attempts)|,
        old(counters).retries + attempts - 1)
      ensures counters.attempts - old(counters).attempts
           <= (counters.responses - old(counters).responses) + (counters.errors - old(counters).errors)
      ensures counters.attempts - old(counters).attempts
           == (counters.responses - old(counters).responses) + (counters.errors - old(counters).errors)
        <==> forall k: nat :: k < attempts ==> !CountedTwice(replies(k))
      ensures config.Some? && attempts >= 1 ==> Sum(slept) == Backoff(config.value.baseDelay, attempts - 1)
      ensures config.Some? && attempts >= 1 ==> Doubles(slept, config.value.baseDelay, attempts - 1)
      ensures config.None? ==> slept == []
    {
      hide Backoff, DelayAfter, Sum, Pow2, CanRetryMethod, Retries, Responses, Errors, MayTryAgain, Doubles, SleepsAre,
           AnsweredAmong, RaisedAmong, EndsAs, FinalResult;
      slept, attempts := [], 0;
      NoBackoff(if config.Some? then config.value.baseDelay else 0.0);
      OneMoreReply(replies, 0);
      if closed {
        return Failure(ClientClosed), 0, [];
      }
      counters := counters.(requests := counters.requests + 1);
      while true
        invariant attempts == 0 || (config.Some? && attempts < config.value.maxAttempts)
        invariant config.Some? ==> forall k: nat :: k < attempts ==> MayTryAgain(m, config.value, replies(k), k + 1)
        invariant closed == old(closed)
        invariant counters == Counters(
          old(counters).requests + 1,
          old(counters).attempts + attempts,
          old(counters).responses + Responses(replies, attempts),
          old(counters).errors + Errors(replies, attempts),
          old(counters).retries + attempts)
        invariant config.Some? ==> Sum(slept) == Backoff(config.value.baseDelay, attempts)
        invariant config.Some? ==> SleepsAre(slept, config.value.baseDelay, attempts)
        invariant config.None? ==> slept == []
        decreases (if config.Some? then config.value.maxAttempts else 1) - attempts
      {
        var reply := replies(attempts);
        OneMoreReply(replies, attempts);
        attempts := attempts + 1;
        RetriesExactly(m, config, reply, attempts);
        counters := counters.(attempts := counters.attempts + 1);
        if Answered(reply) {
          counters := counters.(responses := counters.responses + 1);
        }
        if !reply.Response? {
          counters := counters.(errors := counters.errors + 1);
        }
        if !Retries(m, config, reply, attempts) {
          AttemptsAreCounted(replies, attempts);
          CountsAre(replies, attempts);
          FinalIsEnd(reply);
          if config.Some? {
            SleepsDouble(slept, config.value.baseDelay, attempts - 1);
          }
          return FinalResult(reply), attempts, slept;
        }
        counters := counters.(retries := counters.retries + 1);
        var delay := DelayAfter(config.value.baseDelay, attempts);
        BackoffSum(config.value.baseDelay, attempts, slept);
        OneMoreSleep(slept, config.value.baseDelay, attempts);
        AttemptsLeft(m, config.value, reply, attempts);
        if delay > 0.0 {
          slept := slept + [delay];
        }
      }
    }
  }

  lemma NoBackoff(base: real)
    ensures Sum([]) == 0.0 == Backoff(base, 0) && SleepsAre([], base, 0)
  {
  }

  /** Adding the delay after an attempt to the sum of the earlier ones. */
  lemma BackoffSum(base: real, attempt: nat, slept: seq<real>)
    requires attempt >= 1 && base >= 0.0 && Sum(slept) == Backoff(base, attempt - 1)
    ensures var delay := DelayAfter(base, attempt);
            && Sum(slept + [delay]) == Backoff(base, attempt)
            && (delay <= 0.0 ==> Sum(slept) == Backoff(base, attempt))
  {
    var p: int := Pow2(attempt - 1);
    assert (slept + [DelayAfter(base, attempt)])[..|slept|] == slept;
    assert base * (p - 1) as real + base * p as real == base * ((p - 1) as real + p as real);
  }
}
