/** The in-memory task queue that infra/plugins/template.py emits.

    The deque may hold stale entries (of tasks that left the queued state) and
    duplicates (a task retried while queued); `Step` says what each operation does
    to the whole queue, `TaskQueue` is the emitted class. Clock readings are reals,
    new task ids are parameters. */
module TaskQueues {
  import opened Text

  datatype TaskState = Queued | Running | Completed | Failed | DeadLettered

  datatype Task = Task(
    name: string,
    key: Option<string>,
    state: TaskState,
    error: Option<string>,
    attempts: nat,
    maxAttempts: int,
    availableAt: real)

  datatype QueueError = BlankKey | InvalidTask | UnknownTask

  /** `queued` is the deque, `keys` maps idempotency keys to task ids. */
  datatype Queue = Queue(queued: seq<string>, tasks: map<string, Task>, keys: map<string, string>)

  datatype Op =
    | Enqueue(id: string, name: string, key: Option<string>, delay: real, maxAttempts: int, now: real)
    | Dequeue(now: real)
    | Complete(id: string)
    | Fail(id: string, reason: string)
    | Retry(id: string, reason: string, delay: real, now: real)
    | DeadLetter(id: string, reason: string)

  datatype Outcome =
    | Accepted(id: string, task: Task)
    | Delivered(id: string, task: Task)
    | Nothing
    | Done
    | Raised(error: QueueError)

  const EMPTY := Queue([], map[], map[])

  function NormalizeKey(key: Option<string>): Result<Option<string>, QueueError> {
    if key.None? then Success(None)
    else if Strip(key.value) == "" then Failure(BlankKey)
    else Success(Some(Strip(key.value)))
  }

  function Later(now: real, delay: real): real {
    now + (if delay > 0.0 then delay else 0.0)
  }

  predicate IsQueued(tasks: map<string, Task>, id: string) {
    id in tasks && tasks[id].state == Queued
  }

  predicate Available(tasks: map<string, Task>, id: string, now: real) {
    IsQueued(tasks, id) && tasks[id].availableAt <= now
  }

  /** The position of the first available entry, or the length of the deque. */
  function FirstAvailable(queued: seq<string>, tasks: map<string, Task>, now: real): nat {
    if queued == [] || Available(tasks, queued[0], now) then 0
    else 1 + FirstAvailable(queued[1..], tasks, now)
  }

  /** The entries of queued tasks, in order: what rotating past `entries` keeps. */
  function Live(entries: seq<string>, tasks: map<string, Task>): seq<string> {
    if entries == [] then []
    else (if IsQueued(tasks, entries[0]) then [entries[0]] else []) + Live(entries[1..], tasks)
  }

  lemma {:induction false} FirstAvailableIsFirst(queued: seq<string>, tasks: map<string, Task>, now: real)
    ensures var n := FirstAvailable(queued, tasks, now);
            && n <= |queued|
            && (n < |queued| ==> Available(tasks, queued[n], now))
            && forall i :: 0 <= i < n ==> !Available(tasks, queued[i], now)
  {
    if queued != [] && !Available(tasks, queued[0], now) {
      FirstAvailableIsFirst(queued[1..], tasks, now);
    }
  }

  function Enqueued(q: Queue, op: Op): (Queue, Outcome)
    requires op.Enqueue?
  {
    match NormalizeKey(op.key)
    case Failure(e) => (q, Raised(e))
    case Success(key) =>
      if key.Some? && key.value in q.keys then
        var id := q.keys[key.value];
        (q, if id in q.tasks then Accepted(id, q.tasks[id]) else Raised(UnknownTask))
      else if op.maxAttempts < 1 then (q, Raised(InvalidTask))
      else
        var task := Task(op.name, key, Queued, None, 0, op.maxAttempts, Later(op.now, op.delay));
        var keys := if key.Some? then q.keys[key.value := op.id] else q.keys;
        (Queue(q.queued + [op.id], q.tasks[op.id := task], keys), Accepted(op.id, task))
  }

  function Dequeued(q: Queue, now: real): (Queue, Outcome) {
    var n := FirstAvailable(q.queued, q.tasks, now);
    FirstAvailableIsFirst(q.queued, q.tasks, now);
    if n == |q.queued| then (q.(queued := Live(q.queued, q.tasks)), Nothing)
    else
      var id := q.queued[n];
      var task := q.tasks[id].(state := Running, attempts := q.tasks[id].attempts + 1);
      (q.(queued := q.queued[n + 1..] + Live(q.queued[..n], q.tasks), tasks := q.tasks[id := task]),
       Delivered(id, task))
  }

  function Step(q: Queue, op: Op): (Queue, Outcome) {
    match op
    case Enqueue(_, _, _, _, _, _) => Enqueued(q, op)
    case Dequeue(now) => Dequeued(q, now)
    case Complete(id) =>
      if id !in q.tasks then (q, Raised(UnknownTask))
      else (q.(tasks := q.tasks[id := q.tasks[id].(state := Completed, error := None)]), Done)
    case Fail(id, reason) =>
      if id !in q.tasks then (q, Raised(UnknownTask))
      else (q.(tasks := q.tasks[id := q.tasks[id].(state := Failed, error := Some(reason))]), Done)
    case Retry(id, reason, delay, now) =>
      if id !in q.tasks then (q, Raised(UnknownTask))
      else
        var task := q.tasks[id].(state := Queued, error := Some(reason), availableAt := Later(now, delay));
        (q.(queued := q.queued + [id], tasks := q.tasks[id := task]), Done)
    case DeadLetter(id, reason) =>
      if id !in q.tasks then (q, Raised(UnknownTask))
      else (q.(tasks := q.tasks[id := q.tasks[id].(state := DeadLettered, error := Some(reason))]), Done)
  }

  /** The task is due once the delay, if it is one, has passed. */
  predicate DueAfter(task: Task, now: real, delay: real) {
    && (delay > 0.0 ==> task.availableAt == now + delay)
    && (delay <= 0.0 ==> task.availableAt == now)
  }

  predicate IsNew(task: Task, name: string, key: Option<string>, delay: real, maxAttempts: int, now: real) {
    && task.name == name && task.state == Queued && task.error == None
    && task.attempts == 0 && task.maxAttempts == maxAttempts && DueAfter(task, now, delay)
    && (key == None ==> task.key == None)
    && (key.Some? ==> task.key == Some(Strip(key.value)))
  }

  /** The entry at `k` is the first of a queued task that is due, and its task is `id`. */
  predicate DeliveredAt(queued: seq<string>, tasks: map<string, Task>, now: real, k: nat, id: string) {
    && k < |queued| && queued[k] == id
    && id in tasks && tasks[id].state == Queued && tasks[id].availableAt <= now
    && forall i :: 0 <= i < k ==> NotDue(tasks, queued[i], now)
  }

  /** The entry is stale, or its task is delayed beyond `now`. */
  predicate NotDue(tasks: map<string, Task>, id: string, now: real) {
    id in tasks && tasks[id].state == Queued ==> now < tasks[id].availableAt
  }

  /** An unknown task raises; of a known one the state and the error are set, and neither
      the keys, nor what it was enqueued with, nor any other task changes. */
  ghost predicate OnlyTask(q: Queue, q': Queue, r: Outcome, id: string, state: TaskState, error: Option<string>) {
    && (id !in q.tasks ==> r == Raised(UnknownTask) && q' == q)
    && (id in q.tasks ==>
         && r == Done && q'.keys == q.keys && q'.tasks.Keys == q.tasks.Keys
         && q'.tasks[id] == q.tasks[id].(state := state, error := error, availableAt := q'.tasks[id].availableAt)
         && forall other :: other in q.tasks && other != id ==> q'.tasks[other] == q.tasks[other])
  }

  class TaskQueue {
    var queued: seq<string>
    var tasks: map<string, Task>
    var keys: map<string, string>

    function State(): Queue
      reads this
    {
      Queue(queued, tasks, keys)
    }

    constructor ()
      ensures State() == EMPTY
    {
      queued, tasks, keys := [], map[], map[];
    }

    method EnqueueTask(id: string, name: string, key: Option<string>, delay: real, maxAttempts: int, now: real)
      returns (r: Outcome)
      modifies this
      ensures (State(), r) == Step(old(State()), Enqueue(id, name, key, delay, maxAttempts, now))
      ensures key.Some? && Strip(key.value) == "" ==> r == Raised(BlankKey) && State() == old(State())
      ensures key.Some? && Strip(key.value) != "" && Strip(key.value) in old(keys) ==>
        State() == old(State())
        && r == (if keys[Strip(key.value)] in tasks
                 then Accepted(keys[Strip(key.value)], tasks[keys[Strip(key.value)]]) else Raised(UnknownTask))
      ensures key.None? || (Strip(key.value) != "" && Strip(key.value) !in old(keys)) ==>
        if maxAttempts < 1 then r == Raised(InvalidTask) && State() == old(State())
        else
          && queued == old(queued) + [id] && tasks.Keys == old(tasks.Keys) + {id}
          && IsNew(tasks[id], name, key, delay, maxAttempts, now) && r == Accepted(id, tasks[id])
          && (forall other :: other in old(tasks) && other != id ==> tasks[other] == old(tasks[other]))
          && keys == if key.Some? then old(keys)[Strip(key.value) := id] else old(keys)
    {
      var normalized := NormalizeKey(key);
      if normalized.Failure? {
        return Raised(normalized.error);
      }
      var k := normalized.value;
      if k.Some? && k.value in keys {
        var existing := keys[k.value];
        if existing !in tasks {
          return Raised(UnknownTask);
        }
        return Accepted(existing, tasks[existing]);
      }
      if maxAttempts < 1 {
        return Raised(InvalidTask);
      }
      var task := Task(name, k, Queued, None, 0, maxAttempts, Later(now, delay));
      tasks := tasks[id := task];
      if k.Some? {
        keys := keys[k.value := id];
      }
      queued := queued + [id];
      r := Accepted(id, task);
    }

    /** One pass over the deque: stale entries are dropped, delayed ones go to the
        back, the first available one is delivered. */
    method DequeueTask(now: real) returns (r: Outcome)
      modifies this
      ensures (State(), r) == Step(old(State()), Dequeue(now))
      ensures keys == old(keys) && (r == Nothing || r.Delivered?)
      ensures r == Nothing ==>
        && tasks == old(tasks)
        && forall k :: 0 <= k < |old(queued)| ==> NotDue(old(tasks), old(queued)[k], now)
      ensures r.Delivered? ==>
        && (exists k :: DeliveredAt(old(queued), old(tasks), now, k, r.id))
        && tasks == old(tasks)[r.id := old(tasks)[r.id].(state := Running, attempts := old(tasks)[r.id].attempts + 1)]
        && r.task == tasks[r.id]
    {
      ghost var entries, known := queued, tasks;
      FirstAvailableIsFirst(entries, known, now);
      var n := |queued|;
      var i := 0;
      while i < n
        invariant i <= n == |entries|
        invariant tasks == known && keys == old(keys)
        invariant i <= FirstAvailable(entries, known, now)
        invariant queued == entries[i..] + Live(entries[..i], known)
      {
        var id := queued[0];
        RotateOne(entries, i, known);
        queued := queued[1..];
        i := i + 1;
        if id !in tasks || tasks[id].state != Queued {
          continue;
        }
        if tasks[id].availableAt > now {
          queued := queued + [id];
          continue;
        }
        var task := tasks[id].(state := Running, attempts := tasks[id].attempts + 1);
        tasks := tasks[id := task];
        assert DeliveredAt(entries, known, now, i - 1, id);
        return Delivered(id, task);
      }
      assert entries[..n] == entries && entries[n..] == [];
      assert queued == Live(entries, known);
      r := Nothing;
    }

    method CompleteTask(id: string) returns (r: Outcome)
      modifies this
      ensures (State(), r) == Step(old(State()), Complete(id))
      ensures OnlyTask(old(State()), State(), r, id, Completed, None)
      ensures queued == old(queued) && (id in tasks ==> tasks[id].availableAt == old(tasks[id].availableAt))
    {
      if id !in tasks { return Raised(UnknownTask); }
      tasks := tasks[id := tasks[id].(state := Completed, error := None)];
      r := Done;
    }

    method FailTask(id: string, reason: string) returns (r: Outcome)
      modifies this
      ensures (State(), r) == Step(old(State()), Fail(id, reason))
      ensures OnlyTask(old(State()), State(), r, id, Failed, Some(reason))
      ensures queued == old(queued) && (id in tasks ==> tasks[id].availableAt == old(tasks[id].availableAt))
    {
      if id !in tasks { return Raised(UnknownTask); }
      tasks := tasks[id := tasks[id].(state := Failed, error := Some(reason))];
      r := Done;
    }

    method RetryTask(id: string, reason: string, delay: real, now: real) returns (r: Outcome)
      modifies this
      ensures (State(), r) == Step(old(State()), Retry(id, reason, delay, now))
      ensures OnlyTask(old(State()), State(), r, id, Queued, Some(reason))
      ensures queued == old(queued) + (if id in tasks then [id] else [])
      ensures id in tasks ==> DueAfter(tasks[id], now, delay)
    {
      if id !in tasks { return Raised(UnknownTask); }
      tasks := tasks[id := tasks[id].(state := Queued, error := Some(reason), availableAt := Later(now, delay))];
      queued := queued + [id];
      r := Done;
    }

    method DeadLetterTask(id: string, reason: string) returns (r: Outcome)
      modifies this
      ensures (State(), r) == Step(old(State()), DeadLetter(id, reason))
      ensures OnlyTask(old(State()), State(), r, id, DeadLettered, Some(reason))
      ensures queued == old(queued) && (id in tasks ==> tasks[id].availableAt == old(tasks[id].availableAt))
    {
      if id !in tasks { return Raised(UnknownTask); }
      tasks := tasks[id := tasks[id].(state := DeadLettered, error := Some(reason))];
      r := Done;
    }
  }

  lemma {:induction false} LiveAppend(entries: seq<string>, id: string, tasks: map<string, Task>)
    ensures Live(entries + [id], tasks) == Live(entries, tasks) + (if IsQueued(tasks, id) then [id] else [])
  {
    if entries != [] {
      assert (entries + [id])[1..] == entries[1..] + [id];
      LiveAppend(entries[1..], id, tasks);
    }
  }

  lemma RotateOne(entries: seq<string>, i: nat, tasks: map<string, Task>)
    requires i < |entries|
    ensures var queued := entries[i..] + Live(entries[..i], tasks);
            && queued[0] == entries[i]
            && queued[1..] == entries[i + 1..] + Live(entries[..i], tasks)
            && queued[1..] + (if IsQueued(tasks, entries[i]) then [entries[i]] else [])
               == entries[i + 1..] + Live(entries[..i + 1], tasks)
            && (!IsQueued(tasks, entries[i]) ==> Live(entries[..i + 1], tasks) == Live(entries[..i], tasks))
  {
    assert entries[..i + 1] == entries[..i] + [entries[i]];
    LiveAppend(entries[..i], entries[i], tasks);
  }

  lemma {:induction false} LiveHolds(entries: seq<string>, tasks: map<string, Task>)
    ensures forall id :: id in Live(entries, tasks) <==> id in entries && IsQueued(tasks, id)
  {
    if entries != [] {
      LiveHolds(entries[1..], tasks);
    }
  }

  // ------------------------------------------------------------- invariant

  ghost predicate Inv(q: Queue) {
    && (forall id :: id in q.queued ==> id in q.tasks)
    && (forall id :: IsQueued(q.tasks, id) ==> id in q.queued)
    && (forall k :: k in q.keys ==> q.keys[k] in q.tasks && q.tasks[q.keys[k]].key == Some(k))
    && (forall id :: id in q.tasks && q.tasks[id].key.Some? ==>
         q.tasks[id].key.value in q.keys && q.keys[q.tasks[id].key.value] == id)
  }

  /** The id of a new task has not been used before. */
  predicate FreshId(q: Queue, op: Op) {
    op.Enqueue? ==> op.id !in q.tasks
  }

  lemma BesideEntry(entries: seq<string>, n: nat, id: string)
    requires n < |entries| && id in entries && id != entries[n]
    ensures id in entries[..n] || id in entries[n + 1..]
  {
    assert entries == entries[..n] + [entries[n]] + entries[n + 1..];
  }

  /** Every queued task keeps an entry in the deque, and idempotency keys and keyed
      tasks stay in one-to-one correspondence, whatever the operation. */
  lemma InvKept(q: Queue, op: Op)
    requires Inv(q) && FreshId(q, op)
    ensures Inv(Step(q, op).0)
  {
    if op.Dequeue? {
      var n := FirstAvailable(q.queued, q.tasks, op.now);
      FirstAvailableIsFirst(q.queued, q.tasks, op.now);
      LiveHolds(q.queued, q.tasks);
      LiveHolds(q.queued[..n], q.tasks);
      if n < |q.queued| {
        var q' := Step(q, op).0;
        forall id | IsQueued(q'.tasks, id) ensures id in q'.queued {
          assert id in q.queued && id != q.queued[n];
          BesideEntry(q.queued, n, id);
        }
      }
    }
  }

  /** `dequeue` returns nothing exactly when no queued task is available. */
  lemma NothingMeansNoneAvailable(q: Queue, now: real)
    requires Inv(q)
    ensures Step(q, Dequeue(now)).1 == Nothing <==> forall id :: id in q.tasks ==> !Available(q.tasks, id, now)
  {
    FirstAvailableIsFirst(q.queued, q.tasks, now);
  }

  // -------------------------------------------------------------- histories

  /** The queue after the first `n` operations. */
  function After(ops: seq<Op>, n: nat): Queue
    requires n <= |ops|
  {
    if n == 0 then EMPTY else Step(After(ops, n - 1), ops[n - 1]).0
  }

  function OutcomeOf(ops: seq<Op>, i: nat): Outcome
    requires i < |ops|
  {
    Step(After(ops, i), ops[i]).1
  }

  predicate FreshAt(ops: seq<Op>, i: nat)
    requires i < |ops|
  {
    FreshId(After(ops, i), ops[i])
  }

  ghost predicate FreshIds(ops: seq<Op>) {
    forall i: nat :: i < |ops| ==> FreshAt(ops, i)
  }

  predicate Delivers(ops: seq<Op>, i: nat, id: string)
    requires i < |ops|
  {
    OutcomeOf(ops, i).Delivered? && OutcomeOf(ops, i).id == id
  }

  function Deliveries(ops: seq<Op>, n: nat, id: string): nat
    requires n <= |ops|
  {
    if n == 0 then 0 else Deliveries(ops, n - 1, id) + (if Delivers(ops, n - 1, id) then 1 else 0)
  }

  lemma {:induction false} InvAlways(ops: seq<Op>, n: nat)
    requires FreshIds(ops) && n <= |ops|
    ensures Inv(After(ops, n))
  {
    if n > 0 {
      InvAlways(ops, n - 1);
      assert FreshAt(ops, n - 1);
      InvKept(After(ops, n - 1), ops[n - 1]);
    }
  }

  /** How one operation changes a given task. */
  lemma StepOnTask(q: Queue, op: Op, id: string)
    requires Inv(q) && FreshId(q, op)
    ensures var (q', r) := Step(q, op);
            && (id in q.tasks ==> id in q'.tasks)
            && (r.Delivered? && r.id == id ==>
                 IsQueued(q.tasks, id) && q'.tasks[id].state == Running
                 && q'.tasks[id].attempts == q.tasks[id].attempts + 1)
            && (id in q.tasks && !(r.Delivered? && r.id == id) ==> q'.tasks[id].attempts == q.tasks[id].attempts)
            && (id !in q.tasks && id in q'.tasks ==> q'.tasks[id].attempts == 0)
            && (id in q.tasks && !IsQueued(q.tasks, id) && !(op.Retry? && op.id == id) ==> !IsQueued(q'.tasks, id))
  {
    if op.Dequeue? {
      FirstAvailableIsFirst(q.queued, q.tasks, op.now);
    }
  }

  /** A task's attempt counter is the number of times it has been delivered. */
  lemma {:induction false} AttemptsAreDeliveries(ops: seq<Op>, n: nat, id: string)
    requires FreshIds(ops) && n <= |ops|
    ensures var tasks := After(ops, n).tasks;
            if id in tasks then tasks[id].attempts == Deliveries(ops, n, id) else Deliveries(ops, n, id) == 0
  {
    if n > 0 {
      AttemptsAreDeliveries(ops, n - 1, id);
      InvAlways(ops, n - 1);
      assert FreshAt(ops, n - 1);
      StepOnTask(After(ops, n - 1), ops[n - 1], id);
    }
  }

  lemma {:induction false} StaysOut(ops: seq<Op>, lo: nat, hi: nat, id: string)
    requires FreshIds(ops) && lo <= hi <= |ops|
    requires id in After(ops, lo).tasks && !IsQueued(After(ops, lo).tasks, id)
    requires forall m :: lo <= m < hi ==> !(ops[m].Retry? && ops[m].id == id)
    ensures id in After(ops, hi).tasks && !IsQueued(After(ops, hi).tasks, id)
    decreases hi
  {
    if lo < hi {
      StaysOut(ops, lo, hi - 1, id);
      InvAlways(ops, hi - 1);
      assert FreshAt(ops, hi - 1);
      StepOnTask(After(ops, hi - 1), ops[hi - 1], id);
    }
  }

  /** A task is never delivered twice without a retry of it in between. */
  lemma NoDoubleDelivery(ops: seq<Op>, i: nat, j: nat, id: string)
    requires FreshIds(ops) && i < j < |ops|
    requires Delivers(ops, i, id) && Delivers(ops, j, id)
    ensures exists m :: i < m < j && ops[m].Retry? && ops[m].id == id
  {
    hide Step, Inv;
    if forall m :: i < m < j ==> !(ops[m].Retry? && ops[m].id == id) {
      InvAlways(ops, i);
      InvAlways(ops, j);
      assert FreshAt(ops, i);
      StepOnTask(After(ops, i), ops[i], id);
      assert After(ops, i + 1) == Step(After(ops, i), ops[i]).0;
      StaysOut(ops, i + 1, j, id);
      assert FreshAt(ops, j);
      StepOnTask(After(ops, j), ops[j], id);
      assert false;
    }
  }

  lemma {:induction false} KeysPersist(ops: seq<Op>, lo: nat, hi: nat, key: string)
    requires lo <= hi <= |ops| && key in After(ops, lo).keys
    ensures key in After(ops, hi).keys && After(ops, hi).keys[key] == After(ops, lo).keys[key]
    decreases hi
  {
    if lo < hi {
      KeysPersist(ops, lo, hi - 1, key);
    }
  }

  /** The idempotency key that counts: the one passed without blanks around it. */
  predicate Under(op: Op, key: string) {
    op.Enqueue? && op.key.Some? && Strip(op.key.value) == key && key != ""
  }

  lemma KeyStored(q: Queue, op: Op, key: string)
    requires Under(op, key)
    ensures var (q', r) := Step(q, op);
            && (r.Accepted? ==> key in q'.keys && q'.keys[key] == r.id)
            && (key in q.keys && q.keys[key] in q.tasks ==> r.Accepted? && r.id == q.keys[key])
  {
  }

  /** All successful enqueues under one idempotency key return the same task. */
  lemma OneTaskPerKey(ops: seq<Op>, i: nat, j: nat, key: string)
    requires FreshIds(ops) && i < j < |ops|
    requires Under(ops[i], key) && Under(ops[j], key)
    requires OutcomeOf(ops, i).Accepted?
    ensures OutcomeOf(ops, j).Accepted? && OutcomeOf(ops, j).id == OutcomeOf(ops, i).id
  {
    hide Step, Under;
    KeyStored(After(ops, i), ops[i], key);
    assert After(ops, i + 1) == Step(After(ops, i), ops[i]).0;
    KeysPersist(ops, i + 1, j, key);
    InvAlways(ops, j);
    KeyStored(After(ops, j), ops[j], key);
  }

  /** The task that an accepted enqueue returns is there, under the key it passed. */
  lemma TaskStored(q: Queue, op: Op)
    requires Inv(q) && op.Enqueue? && Step(q, op).1.Accepted?
    ensures var (q', r) := Step(q, op);
            && r.id in q'.tasks
            && (op.key.None? ==> q'.tasks[r.id].key == None && r.id == op.id)
            && (op.key.Some? ==> q'.tasks[r.id].key == Some(Strip(op.key.value)))
  {
  }

  lemma {:induction false} TaskKeyStays(ops: seq<Op>, lo: nat, hi: nat, id: string)
    requires FreshIds(ops) && lo <= hi <= |ops| && id in After(ops, lo).tasks
    ensures id in After(ops, hi).tasks && After(ops, hi).tasks[id].key == After(ops, lo).tasks[id].key
    decreases hi
  {
    if lo < hi {
      TaskKeyStays(ops, lo, hi - 1, id);
      assert FreshAt(ops, hi - 1);
      KeyOfTaskKept(After(ops, hi - 1), ops[hi - 1], id);
    }
  }

  lemma KeyOfTaskKept(q: Queue, op: Op, id: string)
    requires FreshId(q, op) && id in q.tasks
    ensures id in Step(q, op).0.tasks && Step(q, op).0.tasks[id].key == q.tasks[id].key
  {
    if op.Dequeue? {
      FirstAvailableIsFirst(q.queued, q.tasks, op.now);
    }
  }

  /** And only those: two accepted enqueues return one task only if both pass a key and
      the keys are the same but for blanks around them. */
  lemma SameTaskSameKey(ops: seq<Op>, i: nat, j: nat)
    requires FreshIds(ops) && i < j < |ops| && ops[i].Enqueue? && ops[j].Enqueue?
    requires OutcomeOf(ops, i).Accepted? && OutcomeOf(ops, j).Accepted?
    requires OutcomeOf(ops, i).id == OutcomeOf(ops, j).id
    ensures ops[i].key.Some? && ops[j].key.Some? && Strip(ops[i].key.value) == Strip(ops[j].key.value)
  {
    hide Step, Inv, Strip;
    InvAlways(ops, i);
    InvAlways(ops, j);
    var id := OutcomeOf(ops, i).id;
    TaskStored(After(ops, i), ops[i]);
    TaskStored(After(ops, j), ops[j]);
    assert After(ops, i + 1) == Step(After(ops, i), ops[i]).0;
    assert After(ops, j + 1) == Step(After(ops, j), ops[j]).0;
    TaskKeyStays(ops, i + 1, j, id);
    TaskKeyStays(ops, j, j + 1, id);
    assert FreshAt(ops, j);
  }

  // ----------------------------------------------------------------- delays

  /** The operation puts task `id` in line: the enqueue that made it, or a retry. */
  predicate Schedules(ops: seq<Op>, i: nat, id: string)
    requires i < |ops|
  {
    || (ops[i].Enqueue? && ops[i].id == id && OutcomeOf(ops, i).Accepted? && OutcomeOf(ops, i).id == id)
    || (ops[i].Retry? && ops[i].id == id && OutcomeOf(ops, i) == Done)
  }

  lemma ScheduledFor(q: Queue, op: Op, id: string)
    requires Inv(q) && FreshId(q, op) && (op.Enqueue? || op.Retry?) && op.id == id
    requires var r := Step(q, op).1; if op.Enqueue? then r.Accepted? && r.id == id else r == Done
    ensures id in Step(q, op).0.tasks && DueAfter(Step(q, op).0.tasks[id], op.now, op.delay)
  {
  }

  lemma TimeStays(q: Queue, op: Op, id: string)
    requires FreshId(q, op) && id in q.tasks && !(op.Retry? && op.id == id)
    ensures id in Step(q, op).0.tasks && Step(q, op).0.tasks[id].availableAt == q.tasks[id].availableAt
    ensures Step(q, op).1.Delivered? && Step(q, op).1.id == id ==> op.Dequeue? && q.tasks[id].availableAt <= op.now
  {
    if op.Dequeue? {
      FirstAvailableIsFirst(q.queued, q.tasks, op.now);
    }
  }

  lemma {:induction false} TimeKept(ops: seq<Op>, lo: nat, hi: nat, id: string)
    requires FreshIds(ops) && lo <= hi <= |ops| && id in After(ops, lo).tasks
    requires forall m :: lo <= m < hi ==> !(ops[m].Retry? && ops[m].id == id)
    ensures id in After(ops, hi).tasks && After(ops, hi).tasks[id].availableAt == After(ops, lo).tasks[id].availableAt
    decreases hi
  {
    if lo < hi {
      TimeKept(ops, lo, hi - 1, id);
      assert FreshAt(ops, hi - 1);
      TimeStays(After(ops, hi - 1), ops[hi - 1], id);
    }
  }

  /** A task is never delivered before the delay has passed with which it was enqueued
      or last retried. */
  lemma NotBeforeItsTime(ops: seq<Op>, i: nat, j: nat, id: string)
    requires FreshIds(ops) && i < j < |ops| && Schedules(ops, i, id) && Delivers(ops, j, id)
    requires forall m :: i < m < j ==> !(ops[m].Retry? && ops[m].id == id)
    ensures ops[j].Dequeue? && ops[i].now <= ops[j].now && ops[i].now + ops[i].delay <= ops[j].now
  {
    hide Step, Inv;
    InvAlways(ops, i);
    assert FreshAt(ops, i) && FreshAt(ops, j);
    ScheduledFor(After(ops, i), ops[i], id);
    assert After(ops, i + 1) == Step(After(ops, i), ops[i]).0;
    TimeKept(ops, i + 1, j, id);
    OnlyDequeuesDeliver(After(ops, j), ops[j]);
    TimeStays(After(ops, j), ops[j], id);
  }

  lemma OnlyDequeuesDeliver(q: Queue, op: Op)
    ensures Step(q, op).1.Delivered? ==> op.Dequeue?
  {
  }

  // --------------------------------------------------------------- draining

  /** The available tasks of a deque, by their first entries. */
  function InLine(entries: seq<string>, tasks: map<string, Task>, now: real): seq<string> {
    if entries == [] then []
    else
      var front, last := entries[..|entries| - 1], entries[|entries| - 1];
      InLine(front, tasks, now) + (if Available(tasks, last, now) && last !in front then [last] else [])
  }

  /** The ids that `n` dequeues in a row deliver. */
  function Drained(q: Queue, now: real, n: nat): seq<string>
    decreases n
  {
    if n == 0 then []
    else
      var (q', r) := Step(q, Dequeue(now));
      if r.Delivered? then [r.id] + Drained(q', now, n - 1) else []
  }

  lemma {:induction false} InLineHolds(entries: seq<string>, tasks: map<string, Task>, now: real)
    ensures forall id :: id in InLine(entries, tasks, now) <==> id in entries && Available(tasks, id, now)
    ensures forall i, j :: 0 <= i < j < |InLine(entries, tasks, now)| ==>
              InLine(entries, tasks, now)[i] != InLine(entries, tasks, now)[j]
  {
    if entries != [] {
      var front, last := entries[..|entries| - 1], entries[|entries| - 1];
      assert entries == front + [last];
      InLineHolds(front, tasks, now);
    }
  }

  lemma NobodyInLine(entries: seq<string>, tasks: map<string, Task>, now: real)
    requires forall id :: id in entries ==> !Available(tasks, id, now)
    ensures InLine(entries, tasks, now) == []
  {
    NobodyBehind([], entries, tasks, now);
    assert [] + entries == entries;
  }

  lemma InLineLast(front: seq<string>, last: string, tasks: map<string, Task>, now: real)
    ensures InLine(front + [last], tasks, now)
         == InLine(front, tasks, now) + (if Available(tasks, last, now) && last !in front then [last] else [])
  {
    assert (front + [last])[..|front|] == front;
  }

  lemma StillInLine(front: seq<string>, n: nat, last: string, tasks: map<string, Task>, rest: map<string, Task>,
                    now: real)
    requires n < |front| && forall i :: 0 <= i < n ==> !Available(tasks, front[i], now)
    requires Available(rest, last, now) <==> last != front[n] && Available(tasks, last, now)
    ensures Available(tasks, last, now) && last !in front <==> Available(rest, last, now) && last !in front[n + 1..]
  {
    hide Available;
    assert front == front[..n] + [front[n]] + front[n + 1..];
    assert forall id :: id in front[..n] ==> !Available(tasks, id, now);
  }

  /** Delivering the first task in line leaves the others in line. */
  lemma {:induction false} HeadOfLine(entries: seq<string>, n: nat, tasks: map<string, Task>, rest: map<string, Task>,
                                      now: real)
    requires n < |entries| && Available(tasks, entries[n], now)
    requires forall i :: 0 <= i < n ==> !Available(tasks, entries[i], now)
    requires forall id :: Available(rest, id, now) <==> id != entries[n] && Available(tasks, id, now)
    ensures InLine(entries, tasks, now) == [entries[n]] + InLine(entries[n + 1..], rest, now)
  {
    hide InLine, Available;
    var front, last := entries[..|entries| - 1], entries[|entries| - 1];
    assert entries == front + [last];
    InLineLast(front, last, tasks, now);
    if n == |front| {
      NobodyInLine(front, tasks, now);
      NobodyInLine([], rest, now);
      assert last == entries[n] && last !in front;
      assert entries[n + 1..] == [];
    } else {
      HeadOfLine(front, n, tasks, rest, now);
      assert entries[n + 1..] == front[n + 1..] + [last];
      InLineLast(front[n + 1..], last, rest, now);
      StillInLine(front, n, last, tasks, rest, now);
    }
  }

  lemma {:induction false} NobodyBehind(entries: seq<string>, more: seq<string>, tasks: map<string, Task>, now: real)
    requires forall id :: id in more ==> !Available(tasks, id, now)
    ensures InLine(entries + more, tasks, now) == InLine(entries, tasks, now)
  {
    if more == [] {
      assert entries + more == entries;
    } else {
      var front, last := more[..|more| - 1], more[|more| - 1];
      assert (entries + more)[..|entries + more| - 1] == entries + front;
      assert last in more;
      NobodyBehind(entries, front, tasks, now);
    }
  }

  lemma DeliveredStep(q: Queue, now: real)
    ensures var n := FirstAvailable(q.queued, q.tasks, now);
            && n <= |q.queued|
            && (forall i :: 0 <= i < n ==> !Available(q.tasks, q.queued[i], now))
            && (n == |q.queued| ==> Step(q, Dequeue(now)).1 == Nothing)
    ensures var n := FirstAvailable(q.queued, q.tasks, now);
            var (q', r) := Step(q, Dequeue(now));
            n < |q.queued| ==>
              && Available(q.tasks, q.queued[n], now) && r.Delivered? && r.id == q.queued[n]
              && q'.queued == q.queued[n + 1..] + Live(q.queued[..n], q.tasks)
              && (forall id :: Available(q'.tasks, id, now) <==> id != r.id && Available(q.tasks, id, now))
  {
    hide Live;
    FirstAvailableIsFirst(q.queued, q.tasks, now);
  }

  lemma SkippedAreNotAvailable(q: Queue, now: real, n: nat)
    requires n <= |q.queued| && forall i :: 0 <= i < n ==> !Available(q.tasks, q.queued[i], now)
    ensures forall id :: id in Live(q.queued[..n], q.tasks) ==> !Available(q.tasks, id, now)
  {
    LiveHolds(q.queued[..n], q.tasks);
  }

  lemma OneDrained(q: Queue, now: real)
    ensures var line := InLine(q.queued, q.tasks, now);
            var (q', r) := Step(q, Dequeue(now));
            if line == [] then r == Nothing
            else r.Delivered? && r.id == line[0] && InLine(q'.queued, q'.tasks, now) == line[1..]
  {
    hide Step, Available, Live, InLine, FirstAvailable;
    var n := FirstAvailable(q.queued, q.tasks, now);
    DeliveredStep(q, now);
    if n < |q.queued| {
      var q' := Step(q, Dequeue(now)).0;
      HeadOfLine(q.queued, n, q.tasks, q'.tasks, now);
      SkippedAreNotAvailable(q, now, n);
      NobodyBehind(q.queued[n + 1..], Live(q.queued[..n], q.tasks), q'.tasks, now);
    } else {
      NobodyInLine(q.queued, q.tasks, now);
    }
  }

  /** At a given time, dequeues deliver the available tasks in the order of their first
      entries, each once, however delayed and stale entries are mixed in; then nothing. */
  lemma {:induction false} FirstInFirstOut(q: Queue, now: real, n: nat)
    ensures var line := InLine(q.queued, q.tasks, now);
            Drained(q, now, n) == line[..if n < |line| then n else |line|]
    decreases n
  {
    hide Step, InLine;
    OneDrained(q, now);
    if n > 0 && InLine(q.queued, q.tasks, now) != [] {
      FirstInFirstOut(Step(q, Dequeue(now)).0, now, n - 1);
    }
  }

  /** No available task is left waiting: enough dequeues deliver every one. */
  lemma EveryAvailableTaskIsDelivered(q: Queue, now: real, n: nat, id: string)
    requires Inv(q) && n >= |q.queued|
    ensures id in Drained(q, now, n) <==> id in q.tasks && Available(q.tasks, id, now)
  {
    hide Step;
    FirstInFirstOut(q, now, n);
    InLineHolds(q.queued, q.tasks, now);
    LineIsShort(q.queued, q.tasks, now);
    var line := InLine(q.queued, q.tasks, now);
    assert line[..|line|] == line;
  }

  lemma {:induction false} LineIsShort(entries: seq<string>, tasks: map<string, Task>, now: real)
    ensures |InLine(entries, tasks, now)| <= |entries|
  {
    if entries != [] {
      LineIsShort(entries[..|entries| - 1], tasks, now);
    }
  }

  // ------------------------------------------------------ bounded overtaking

  /** The position of the first entry of `id`, or the length of the deque. */
  function FirstEntry(queued: seq<string>, id: string): nat {
    if queued == [] || queued[0] == id then 0 else 1 + FirstEntry(queued[1..], id)
  }

  lemma {:induction false} FirstEntryIs(queued: seq<string>, id: string, p: nat)
    requires p <= |queued| && forall i :: 0 <= i < p ==> queued[i] != id
    ensures p == |queued| || queued[p] == id ==> FirstEntry(queued, id) == p
  {
    if p > 0 {
      FirstEntryIs(queued[1..], id, p - 1);
    }
  }

  lemma {:induction false} FirstEntryHolds(queued: seq<string>, id: string)
    ensures FirstEntry(queued, id) <= |queued|
    ensures FirstEntry(queued, id) < |queued| <==> id in queued
    ensures FirstEntry(queued, id) < |queued| ==> queued[FirstEntry(queued, id)] == id
    ensures forall i :: 0 <= i < FirstEntry(queued, id) ==> queued[i] != id
  {
    if queued != [] && queued[0] != id {
      FirstEntryHolds(queued[1..], id);
      assert queued == [queued[0]] + queued[1..];
    }
  }

  /** What is put behind an entry does not move it, and what is taken in front of it does. */
  lemma FirstEntryMoves(queued: seq<string>, id: string, more: seq<string>, n: nat)
    requires id in queued && n <= FirstEntry(queued, id)
    ensures n <= |queued| && id in queued[n..] + more
    ensures FirstEntry(queued[n..] + more, id) == FirstEntry(queued, id) - n
  {
    FirstEntryHolds(queued, id);
    var p := FirstEntry(queued, id);
    assert (queued[n..] + more)[p - n] == queued[p];
    FirstEntryIs(queued[n..] + more, id, p - n);
  }

  function Dequeues(ops: seq<Op>, lo: nat, hi: nat): nat
    requires lo <= hi <= |ops|
  {
    if lo == hi then 0 else Dequeues(ops, lo, hi - 1) + (if ops[hi - 1].Dequeue? then 1 else 0)
  }

  /** A step that is not a dequeue at most appends to the deque. */
  lemma OthersAppend(q: Queue, op: Op)
    requires !op.Dequeue?
    ensures Step(q, op).0.queued == q.queued || exists id :: Step(q, op).0.queued == q.queued + [id]
  {
  }

  /** Each dequeue either delivers `id` or brings it at least one position forward. */
  lemma DequeueMovesForward(q: Queue, now: real, id: string)
    requires id in q.queued && Available(q.tasks, id, now)
    ensures var (q', r) := Step(q, Dequeue(now));
            r.Delivered? && (r.id != id ==> id in q'.queued && FirstEntry(q'.queued, id) < FirstEntry(q.queued, id))
  {
    hide Live, FirstEntry, FirstAvailable;
    var n, p := FirstAvailable(q.queued, q.tasks, now), FirstEntry(q.queued, id);
    FirstAvailableIsFirst(q.queued, q.tasks, now);
    FirstEntryHolds(q.queued, id);
    if q.queued[n] != id {
      FirstEntryMoves(q.queued, id, Live(q.queued[..n], q.tasks), n + 1);
    }
  }

  /** `id` is available at every dequeue from operation `lo` until `hi`. */
  ghost predicate StaysAvailable(ops: seq<Op>, lo: nat, hi: nat, id: string)
    requires lo <= hi <= |ops|
  {
    forall m :: lo <= m < hi && ops[m].Dequeue? ==> Available(After(ops, m).tasks, id, ops[m].now)
  }

  ghost predicate NotDelivered(ops: seq<Op>, lo: nat, hi: nat, id: string)
    requires lo <= hi <= |ops|
  {
    forall m :: lo <= m < hi ==> !Delivers(ops, m, id)
  }

  lemma {:induction false} MovesForward(ops: seq<Op>, lo: nat, hi: nat, id: string)
    requires lo <= hi <= |ops| && id in After(ops, lo).queued
    requires StaysAvailable(ops, lo, hi, id) && NotDelivered(ops, lo, hi, id)
    ensures id in After(ops, hi).queued
    ensures FirstEntry(After(ops, hi).queued, id) + Dequeues(ops, lo, hi) <= FirstEntry(After(ops, lo).queued, id)
    decreases hi
  {
    hide Step, FirstEntry, Available;
    if lo < hi {
      var q, op := After(ops, hi - 1), ops[hi - 1];
      MovesForward(ops, lo, hi - 1, id);
      assert !Delivers(ops, hi - 1, id);
      if op.Dequeue? {
        DequeueMovesForward(q, op.now, id);
      } else {
        OthersAppend(q, op);
        assert q.queued[0..] == q.queued && q.queued + [] == q.queued;
        FirstEntryMoves(q.queued, id, [], 0);
        if more :| Step(q, op).0.queued == q.queued + [more] {
          FirstEntryMoves(q.queued, id, [more], 0);
        }
      }
    }
  }

  /** No task is overtaken for ever: one whose first entry is at position `p` is delivered
      within `p + 1` dequeues, at whatever times they come and whatever other operations
      are interleaved, as long as it stays available. */
  lemma BoundedOvertaking(ops: seq<Op>, lo: nat, hi: nat, id: string)
    requires lo <= hi <= |ops| && id in After(ops, lo).queued && StaysAvailable(ops, lo, hi, id)
    requires Dequeues(ops, lo, hi) > FirstEntry(After(ops, lo).queued, id)
    ensures exists m :: lo <= m < hi && Delivers(ops, m, id)
  {
    if NotDelivered(ops, lo, hi, id) {
      MovesForward(ops, lo, hi, id);
    }
  }
}
