/** The distributed lock of infra/plugins/lock/manager.py.

    `Redis` is the part of the server the lock relies on: SET NX EX, and two
    scripts that compare the stored token before deleting the entry or moving its
    expiry. An entry whose expiry has passed counts as absent. */
module DistributedLock {
  import opened Text

  datatype Entry = Entry(token: string, expiresAt: real)

  datatype Redis = Redis(entries: map<string, Entry>, now: real)

  datatype LockError = InvalidArgument | NotAcquired | TimedOut

  predicate Live(r: Redis, key: string) {
    key in r.entries && r.now < r.entries[key].expiresAt
  }

  function SetNxEx(r: Redis, key: string, token: string, ttl: int): (Redis, bool) {
    if Live(r, key) then (r, false)
    else (r.(entries := r.entries[key := Entry(token, r.now + ttl as real)]), true)
  }

  function CompareAndDelete(r: Redis, key: string, token: string): (Redis, bool) {
    if Live(r, key) && r.entries[key].token == token then (r.(entries := r.entries - {key}), true)
    else (r, false)
  }

  function CompareAndExpire(r: Redis, key: string, token: string, ttl: int): (Redis, bool) {
    if Live(r, key) && r.entries[key].token == token then
      (r.(entries := r.entries[key := Entry(token, r.now + ttl as real)]), true)
    else (r, false)
  }

  /** The two states agree on whether there is an entry of that name and what it holds. */
  ghost predicate SameEntry(a: Redis, b: Redis, name: string) {
    && (name in a.entries <==> name in b.entries)
    && (name in a.entries ==> a.entries[name] == b.entries[name])
  }

  /** `b` is `a` but for the entry `name`: the clock and every other entry stay. */
  ghost predicate OnlyChanges(a: Redis, b: Redis, name: string) {
    a.now == b.now && forall other :: other != name ==> SameEntry(a, b, other)
  }

  /** The entry `name` is live and holds that token. */
  predicate HeldUnder(r: Redis, name: string, token: string) {
    name in r.entries && r.now < r.entries[name].expiresAt && r.entries[name].token == token
  }

  /** The entry, which is not live before, holds the token for the next `ttl` seconds;
      nothing else changes. */
  ghost predicate Takes(before: Redis, after: Redis, name: string, token: string, ttl: int) {
    && (name in before.entries ==> before.entries[name].expiresAt <= before.now)
    && OnlyChanges(before, after, name)
    && name in after.entries && after.entries[name] == Entry(token, after.now + ttl as real)
  }

  lemma SetTakes(r: Redis, name: string, token: string, ttl: int)
    ensures SetNxEx(r, name, token, ttl).1 <==> !Live(r, name)
    ensures SetNxEx(r, name, token, ttl).1 ==> Takes(r, SetNxEx(r, name, token, ttl).0, name, token, ttl)
    ensures !SetNxEx(r, name, token, ttl).1 ==> SetNxEx(r, name, token, ttl).0 == r
  {
  }

  class RedisServer {
    var state: Redis

    constructor (state: Redis)
      ensures this.state == state
    {
      this.state := state;
    }
  }

  class DistributedLockManager {
    const prefix: string
    const redis: RedisServer

    constructor (redis: RedisServer, prefix: string)
      ensures this.redis == redis && this.prefix == prefix
    {
      this.redis, this.prefix := redis, prefix;
    }

    function BuildKey(key: string): string {
      prefix + ":" + key
    }

    predicate ValidKey(key: string) {
      Strip(key) != ""
    }

    /** `others(n)` is the server as other clients and its clock have left it before
        attempt `n`; `clock(0)` is read before the first attempt and `clock(n)` after
        the n-th failed one. Each sleep lasts at least a tenth of a second. `run(n)` is
        what all clients and the clock have done before attempt `n`; if that is a legal
        run, a successful acquire is one more legal step of it, and holds the key. */
    method Acquire(key: string, timeout: int, blocking: bool, blockTimeout: int, token: string,
                   others: nat -> Redis, clock: nat -> real, ghost run: nat -> seq<Event>)
      returns (r: Result<string, LockError>, attempts: nat)
      requires clock(0) <= clock(1)
      requires forall n: nat :: n >= 1 ==> clock(n) + 0.1 <= clock(n + 1)
      modifies redis
      ensures Strip(key) == "" || timeout <= 0 || blockTimeout < 0
        <==> r == Failure(InvalidArgument)
      ensures r == Failure(InvalidArgument) ==> attempts == 0 && redis.state == old(redis.state)
      ensures forall i: nat :: i + 1 < attempts ==> Live(others(i), prefix + ":" + key)
      ensures r.Success? ==>
        && r.value == token && attempts >= 1
        && Takes(others(attempts - 1), redis.state, prefix + ":" + key, token, timeout)
        && forall k :: k != key ==> SameEntry(others(attempts - 1), redis.state, prefix + ":" + k)
      ensures r.Success? && LeadsTo(run(attempts - 1), others(attempts - 1), token) ==>
        GrantedAfter(run(attempts - 1), prefix + ":" + key, token, timeout, redis.state)
      ensures r.Failure? && attempts >= 1 ==>
        Live(others(attempts - 1), prefix + ":" + key) && redis.state == others(attempts - 1)
      ensures Strip(key) != "" && timeout > 0 && blockTimeout >= 0 && OnlyOthersHeld(others(0), prefix, key)
        ==> r == Success(token) && attempts == 1
      ensures r == Failure(NotAcquired) ==> !blocking && attempts == 1
      ensures r == Failure(TimedOut) ==> blocking && attempts >= 1 && clock(attempts) - clock(0) >= blockTimeout as real
      ensures blockTimeout >= 0 ==> attempts <= 10 * blockTimeout + 1
    {
      hide SetNxEx, Live, SameEntry, GrantedAfter, LeadsTo, Strip, OnlyOthersHeld;
      attempts := 0;
      if !ValidKey(key) || timeout <= 0 || blockTimeout < 0 {
        return Failure(InvalidArgument), 0;
      }
      var lockKey := BuildKey(key);
      var startTime := clock(0);
      OthersDoNotBlock(others(0), prefix, key);
      while true
        invariant forall i: nat :: i < attempts ==> Live(others(i), lockKey)
        invariant attempts >= 1 ==> clock(attempts) >= startTime + 0.1 * (attempts - 1) as real
        invariant attempts >= 1 ==> blocking && clock(attempts) - startTime < blockTimeout as real
        invariant attempts <= 10 * blockTimeout
        decreases 10 * blockTimeout - attempts
      {
        redis.state := others(attempts);
        SetTakes(redis.state, lockKey, token, timeout);
        var (after, acquired) := SetNxEx(redis.state, lockKey, token, timeout);
        redis.state := after;
        attempts := attempts + 1;
        if acquired {
          NamesDiffer(prefix, key);
          if LeadsTo(run(attempts - 1), others(attempts - 1), token) {
            GrantIsLegal(run(attempts - 1), others(attempts - 1), lockKey, token, timeout);
          }
          return Success(token), attempts;
        }
        if !blocking {
          return Failure(NotAcquired), attempts;
        }
        var elapsed := clock(attempts) - startTime;
        if elapsed >= blockTimeout as real {
          return Failure(TimedOut), attempts;
        }
      }
    }

    method Release(key: string, token: string) returns (r: Result<bool, LockError>)
      modifies redis
      ensures Strip(key) == "" || token == "" ==> r == Failure(InvalidArgument) && redis.state == old(redis.state)
      ensures Strip(key) != "" && token != "" ==> r == Success(HeldUnder(old(redis.state), prefix + ":" + key, token))
      ensures r == Success(true) ==> (prefix + ":" + key) !in redis.state.entries
      ensures r == Success(true) ==> OnlyChanges(old(redis.state), redis.state, prefix + ":" + key)
      ensures r != Success(true) ==> redis.state == old(redis.state)
      ensures forall k :: k != key ==> SameEntry(old(redis.state), redis.state, prefix + ":" + k)
    {
      NamesDiffer(prefix, key);
      if !ValidKey(key) || token == "" {
        return Failure(InvalidArgument);
      }
      var (after, released) := CompareAndDelete(redis.state, BuildKey(key), token);
      redis.state := after;
      r := Success(released);
    }

    method Extend(key: string, token: string, ttl: int) returns (r: Result<bool, LockError>)
      modifies redis
      ensures Strip(key) == "" || token == "" || ttl <= 0 ==>
        r == Failure(InvalidArgument) && redis.state == old(redis.state)
      ensures Strip(key) != "" && token != "" && ttl > 0 ==>
        r == Success(HeldUnder(old(redis.state), prefix + ":" + key, token))
      ensures var name := prefix + ":" + key;
              r == Success(true) ==>
                name in redis.state.entries
                && redis.state.entries[name] == Entry(token, old(redis.state.now) + ttl as real)
      ensures r == Success(true) ==> OnlyChanges(old(redis.state), redis.state, prefix + ":" + key)
      ensures r != Success(true) ==> redis.state == old(redis.state)
      ensures forall k :: k != key ==> SameEntry(old(redis.state), redis.state, prefix + ":" + k)
    {
      NamesDiffer(prefix, key);
      if !ValidKey(key) || token == "" || ttl <= 0 {
        return Failure(InvalidArgument);
      }
      var (after, extended) := CompareAndExpire(redis.state, BuildKey(key), token, ttl);
      redis.state := after;
      r := Success(extended);
    }
  }

  /** Whatever is held under the prefix is held under other lock keys. */
  ghost predicate OnlyOthersHeld(r: Redis, prefix: string, key: string) {
    forall name :: Live(r, name) && prefix + ":" <= name ==> exists k :: k != key && name == prefix + ":" + k
  }

  /** Lock keys of one prefix have entries of their own. */
  lemma NamesDiffer(prefix: string, key: string)
    ensures forall k :: k != key ==> prefix + ":" + k != prefix + ":" + key
  {
    forall k | k != key ensures prefix + ":" + k != prefix + ":" + key {
      assert (prefix + ":" + k)[|prefix| + 1..] == k && (prefix + ":" + key)[|prefix| + 1..] == key;
    }
  }

  lemma OthersDoNotBlock(r: Redis, prefix: string, key: string)
    ensures OnlyOthersHeld(r, prefix, key) <==> !Live(r, prefix + ":" + key)
  {
    hide Live;
    NamesDiffer(prefix, key);
    assert prefix + ":" <= prefix + ":" + key;
    forall name | Live(r, name) && prefix + ":" <= name && name != prefix + ":" + key
      ensures exists k :: k != key && name == prefix + ":" + k
    {
      var k := name[|prefix| + 1..];
      assert name == prefix + ":" + k;
    }
  }

  // ------------------------------------------- all clients and the clock

  /** One atomic step: time passes, or some client reaches the server. */
  datatype Event =
    | Tick(seconds: real)
    | TryAcquire(key: string, token: string, ttl: int)
    | TryRelease(key: string, token: string)
    | TryExtend(key: string, token: string, ttl: int)

  /** What a client knows from the answers it got: the key it holds and until when. */
  datatype Lease = Lease(key: string, deadline: real)

  /** The server, the leases that have not been given back, and every token granted. */
  datatype World = World(redis: Redis, leases: map<string, Lease>, granted: set<string>)

  const START := World(Redis(map[], 0.0), map[], {})

  function Answer(r: Redis, e: Event): (Redis, bool) {
    match e
    case Tick(seconds) => (r.(now := r.now + seconds), true)
    case TryAcquire(key, token, ttl) => SetNxEx(r, key, token, ttl)
    case TryRelease(key, token) => CompareAndDelete(r, key, token)
    case TryExtend(key, token, ttl) => CompareAndExpire(r, key, token, ttl)
  }

  function Next(w: World, e: Event): World {
    var (redis, ok) := Answer(w.redis, e);
    var deadline := if e.TryAcquire? || e.TryExtend? then w.redis.now + e.ttl as real else 0.0;
    match e
    case TryAcquire(key, token, _) =>
      if ok then World(redis, w.leases[token := Lease(key, deadline)], w.granted + {token}) else w.(redis := redis)
    case TryExtend(key, token, _) =>
      if ok then World(redis, w.leases[token := Lease(key, deadline)], w.granted) else w.(redis := redis)
    case TryRelease(key, token) =>
      if ok then World(redis, w.leases - {token}, w.granted) else w.(redis := redis)
    case Tick(_) => w.(redis := redis)
  }

  /** The clock does not go back and an acquiring client brings a token never granted before. */
  predicate Legal(w: World, e: Event) {
    match e
    case Tick(seconds) => seconds >= 0.0
    case TryAcquire(_, token, ttl) => token !in w.granted && ttl > 0
    case TryExtend(_, _, ttl) => ttl > 0
    case TryRelease(_, _) => true
  }

  function WorldAfter(events: seq<Event>, n: nat): World
    requires n <= |events|
  {
    if n == 0 then START else Next(WorldAfter(events, n - 1), events[n - 1])
  }

  predicate LegalAt(events: seq<Event>, i: nat)
    requires i < |events|
  {
    Legal(WorldAfter(events, i), events[i])
  }

  ghost predicate LegalRun(events: seq<Event>) {
    forall i: nat :: i < |events| ==> LegalAt(events, i)
  }

  predicate Holds(w: World, token: string, key: string) {
    token in w.leases && w.leases[token].key == key && w.redis.now < w.leases[token].deadline
  }

  /** The server's live entries are exactly the unexpired leases. */
  ghost predicate Agreement(w: World) {
    && w.leases.Keys <= w.granted
    && (forall token, key :: Holds(w, token, key) ==>
         key in w.redis.entries && w.redis.entries[key] == Entry(token, w.leases[token].deadline))
    && (forall key :: Live(w.redis, key) ==>
         var e := w.redis.entries[key]; e.token in w.leases && w.leases[e.token] == Lease(key, e.expiresAt))
  }

  lemma AgreementKept(w: World, e: Event)
    requires Agreement(w) && Legal(w, e)
    ensures Agreement(Next(w, e))
  {
  }

  lemma {:induction false} AgreementAlways(events: seq<Event>, n: nat)
    requires LegalRun(events) && n <= |events|
    ensures Agreement(WorldAfter(events, n))
  {
    if n > 0 {
      AgreementAlways(events, n - 1);
      assert LegalAt(events, n - 1);
      AgreementKept(WorldAfter(events, n - 1), events[n - 1]);
    }
  }

  /** In every interleaving, no two tokens hold one key at the same time. */
  lemma MutualExclusion(events: seq<Event>, n: nat, a: string, b: string, key: string)
    requires LegalRun(events) && n <= |events|
    requires Holds(WorldAfter(events, n), a, key) && Holds(WorldAfter(events, n), b, key)
    ensures a == b
  {
    AgreementAlways(events, n);
  }

  /** What a client is told is what it holds: an acquire fails exactly while someone
      holds the key, and release and extend succeed exactly for the holder. */
  lemma AnswersFollowLeases(events: seq<Event>, n: nat, key: string, token: string, ttl: int)
    requires LegalRun(events) && n <= |events|
    ensures var w := WorldAfter(events, n);
            && (Answer(w.redis, TryAcquire(key, token, ttl)).1 <==> forall t :: t in w.leases ==> !Holds(w, t, key))
            && (Answer(w.redis, TryRelease(key, token)).1 <==> Holds(w, token, key))
            && (Answer(w.redis, TryExtend(key, token, ttl)).1 <==> Holds(w, token, key))
  {
    AgreementAlways(events, n);
  }

  predicate GivesUp(e: Event, token: string) {
    (e.TryRelease? || e.TryExtend?) && e.token == token
  }

  /** A successful acquire or extension makes its token the holder until now + ttl. */
  lemma GrantSetsDeadline(w: World, e: Event)
    requires Agreement(w) && Legal(w, e) && (e.TryAcquire? || e.TryExtend?) && Answer(w.redis, e).1
    ensures Holds(Next(w, e), e.token, e.key)
    ensures Next(w, e).leases[e.token].deadline == w.redis.now + e.ttl as real
  {
  }

  lemma LeaseSurvives(w: World, e: Event, token: string)
    requires Agreement(w) && Legal(w, e) && token in w.leases && w.redis.now < w.leases[token].deadline
    requires !GivesUp(e, token)
    ensures var w' := Next(w, e);
            token in w'.leases && w'.leases[token] == w.leases[token] && w.redis.now <= w'.redis.now
  {
  }

  lemma HolderBlocks(w: World, holder: string, key: string)
    requires Agreement(w) && Holds(w, holder, key)
    ensures forall token, ttl :: !Answer(w.redis, TryAcquire(key, token, ttl)).1
  {
  }

  lemma {:induction false} LeaseKept(events: seq<Event>, i: nat, n: nat, token: string)
    requires LegalRun(events) && i <= n <= |events| && token in WorldAfter(events, i).leases
    requires forall m :: i <= m < n ==> !GivesUp(events[m], token)
    requires WorldAfter(events, n).redis.now < WorldAfter(events, i).leases[token].deadline
    ensures token in WorldAfter(events, n).leases
    ensures WorldAfter(events, n).leases[token] == WorldAfter(events, i).leases[token]
    decreases n
  {
    hide Agreement, Next;
    if i < n {
      var w := WorldAfter(events, n - 1);
      assert LegalAt(events, n - 1);
      ClockAdvances(w, events[n - 1]);
      LeaseKept(events, i, n - 1, token);
      AgreementAlways(events, n - 1);
      LeaseSurvives(w, events[n - 1], token);
    }
  }

  lemma ClockAdvances(w: World, e: Event)
    requires Legal(w, e)
    ensures w.redis.now <= Next(w, e).redis.now
  {
  }

  /** Until the deadline its last acquire or extension set, and as long as it neither
      releases nor extends, a holder goes on holding the key and every acquire of the
      key by anyone is refused. */
  lemma HeldUntilDeadline(events: seq<Event>, i: nat, n: nat, token: string, key: string)
    requires LegalRun(events) && i <= n <= |events| && Holds(WorldAfter(events, i), token, key)
    requires forall m :: i <= m < n ==> !GivesUp(events[m], token)
    requires WorldAfter(events, n).redis.now < WorldAfter(events, i).leases[token].deadline
    ensures Holds(WorldAfter(events, n), token, key)
    ensures forall other, ttl :: !Answer(WorldAfter(events, n).redis, TryAcquire(key, other, ttl)).1
  {
    hide Agreement, Next, Answer;
    LeaseKept(events, i, n, token);
    AgreementAlways(events, n);
    HolderBlocks(WorldAfter(events, n), token, key);
  }

  /** From the moment an acquire or extension is granted until the time it was granted
      for has passed, and as long as that client neither releases nor extends, it holds
      the key and every acquire of it by anyone is refused. */
  lemma GrantedUntilDeadline(events: seq<Event>, i: nat, n: nat)
    requires LegalRun(events) && i < n <= |events| && (events[i].TryAcquire? || events[i].TryExtend?)
    requires Answer(WorldAfter(events, i).redis, events[i]).1
    requires forall m :: i < m < n ==> !GivesUp(events[m], events[i].token)
    requires WorldAfter(events, n).redis.now < WorldAfter(events, i).redis.now + events[i].ttl as real
    ensures Holds(WorldAfter(events, n), events[i].token, events[i].key)
    ensures forall other, ttl :: !Answer(WorldAfter(events, n).redis, TryAcquire(events[i].key, other, ttl)).1
  {
    hide Agreement, Next, Answer, Legal;
    assert LegalAt(events, i);
    AgreementAlways(events, i);
    GrantSetsDeadline(WorldAfter(events, i), events[i]);
    HeldUntilDeadline(events, i + 1, n, events[i].token, events[i].key);
  }

  /** In every run, no step but the holder's own release or extension touches the entry
      of a key that is held: neither other clients' attempts under other tokens nor
      their acquires, nor time. */
  lemma OtherTokensChangeNothing(events: seq<Event>, n: nat, holder: string, key: string)
    requires LegalRun(events) && n < |events| && Holds(WorldAfter(events, n), holder, key)
    requires !GivesUp(events[n], holder)
    ensures var before, after := WorldAfter(events, n).redis, WorldAfter(events, n + 1).redis;
            key in before.entries && key in after.entries && after.entries[key] == before.entries[key]
  {
    assert LegalAt(events, n);
    AgreementAlways(events, n);
    HolderEntryStays(WorldAfter(events, n), events[n], holder, key);
  }

  lemma HolderEntryStays(w: World, e: Event, holder: string, key: string)
    requires Agreement(w) && Legal(w, e) && Holds(w, holder, key) && !GivesUp(e, holder)
    ensures key in w.redis.entries && key in Next(w, e).redis.entries
    ensures Next(w, e).redis.entries[key] == w.redis.entries[key]
  {
  }

  // ------------------------------------------- one client's acquire in a run

  /** The legal run `events` ends with the server in the state `redis`, and `token` is new. */
  ghost predicate LeadsTo(events: seq<Event>, redis: Redis, token: string) {
    var w := WorldAfter(events, |events|);
    LegalRun(events) && w.redis == redis && token !in w.granted
  }

  /** The acquire is a legal step after `events` that leads to `redis`; its token holds the
      key for `ttl` seconds, during which nobody else's acquire succeeds. */
  ghost predicate GrantedAfter(events: seq<Event>, key: string, token: string, ttl: int, redis: Redis) {
    var grown := events + [TryAcquire(key, token, ttl)];
    var w := WorldAfter(grown, |grown|);
    && LegalRun(grown) && w.redis == redis
    && Holds(w, token, key) && w.leases[token].deadline == redis.now + ttl as real
    && forall other, t :: !Answer(redis, TryAcquire(key, other, t)).1
  }

  lemma {:induction false} WorldOfPrefix(events: seq<Event>, more: seq<Event>, n: nat)
    requires n <= |events|
    ensures WorldAfter(events + more, n) == WorldAfter(events, n)
  {
    if n > 0 {
      WorldOfPrefix(events, more, n - 1);
    }
  }

  lemma LegalOneMore(events: seq<Event>, e: Event)
    requires LegalRun(events) && Legal(WorldAfter(events, |events|), e)
    ensures LegalRun(events + [e])
    ensures WorldAfter(events + [e], |events| + 1) == Next(WorldAfter(events, |events|), e)
  {
    hide Legal, Next;
    forall i: nat | i < |events + [e]| ensures LegalAt(events + [e], i) {
      WorldOfPrefix(events, [e], i);
      if i < |events| {
        assert LegalAt(events, i);
      }
    }
    WorldOfPrefix(events, [e], |events|);
    NextWorld(events + [e], |events|);
  }

  lemma NextWorld(events: seq<Event>, n: nat)
    requires n < |events|
    ensures WorldAfter(events, n + 1) == Next(WorldAfter(events, n), events[n])
  {
  }

  lemma GrantIsLegal(events: seq<Event>, redis: Redis, key: string, token: string, ttl: int)
    requires ttl > 0 && LeadsTo(events, redis, token) && !Live(redis, key)
    ensures GrantedAfter(events, key, token, ttl, SetNxEx(redis, key, token, ttl).0)
  {
    hide LegalRun, Next;
    var e := TryAcquire(key, token, ttl);
    var w := WorldAfter(events, |events|);
    LegalOneMore(events, e);
    AgreementAlways(events, |events|);
    AgreementKept(w, e);
    GrantSetsDeadline(w, e);
    AcquireAnswer(w, e);
    HolderBlocks(Next(w, e), token, key);
  }

  lemma AcquireAnswer(w: World, e: Event)
    requires e.TryAcquire?
    ensures Next(w, e).redis == SetNxEx(w.redis, e.key, e.token, e.ttl).0
    ensures Next(w, e).redis.now == w.redis.now
  {
  }
}
