/** The Rev A asset mutex: a one-token message queue whose uncontended receive and send
    are handled directly, and whose contended ones are left to the operating system. */
module AssetMutex {
  import opened Basics

  type Thread = nat
  type Message = int

  /** A message queue: its messages in FIFO order and the threads parked on either side of it. */
  datatype Queue = Queue(contents: seq<Message>, capacity: nat, sendWaiters: set<Thread>, receiveWaiters: set<Thread>)

  /** A woken thread is runnable again inside its receive call and will look at the queue once more. */
  datatype Status = Idle | Waiting | Woken | Holding(message: Message)

  datatype State = State(queue: Queue, threads: map<Thread, Status>)

  predicate CanReceiveWithoutScheduling(q: Queue) {
    |q.contents| > 0 && q.capacity > 0 && q.sendWaiters == {}
  }

  predicate CanSendWithoutScheduling(q: Queue) {
    |q.contents| < q.capacity && q.capacity > 0 && q.receiveWaiters == {}
  }

  // ---------------------------------------------------------------------
  // The operating system's queue: assumed contract of osRecvMesg and osSendMesg
  // ---------------------------------------------------------------------

  /** The waiter that the system chooses to wake, if there is one. */
  predicate WakeChoice(waiters: set<Thread>, woken: Option<Thread>) {
    if waiters == {} then woken.None? else woken.Some? && woken.value in waiters
  }

  function Without(waiters: set<Thread>, woken: Option<Thread>): (r: set<Thread>) {
    if woken.None? then waiters else waiters - {woken.value}
  }

  function Wake(threads: map<Thread, Status>, woken: Option<Thread>): (r: map<Thread, Status>) {
    if woken.None? then threads else threads[woken.value := Woken]
  }

  /** A blocking receive: takes the oldest message and wakes a sender, or parks the caller. */
  function Receive(s: State, t: Thread, woken: Option<Thread>): (r: State) {
    var q := s.queue;
    if |q.contents| > 0 then
      State(q.(contents := q.contents[1..], sendWaiters := Without(q.sendWaiters, woken)),
            Wake(s.threads, woken)[t := Holding(q.contents[0])])
    else State(q.(receiveWaiters := q.receiveWaiters + {t}), s.threads[t := Waiting])
  }

  /** A non-blocking send: fails on a full queue, otherwise appends and wakes a receiver. */
  function Send(s: State, t: Thread, message: Message, woken: Option<Thread>): (r: State) {
    var q := s.queue;
    if |q.contents| >= q.capacity then s
    else
      State(q.(contents := q.contents + [message], receiveWaiters := Without(q.receiveWaiters, woken)),
            Wake(s.threads[t := Idle], woken))
  }

  // ---------------------------------------------------------------------
  // The hooks
  // ---------------------------------------------------------------------

  /** `dkr_v11_asset_mutex_acquire`. */
  function Acquire(s: State, t: Thread, woken: Option<Thread>): (r: State) {
    var q := s.queue;
    if CanReceiveWithoutScheduling(q) then
      State(q.(contents := q.contents[1..]), s.threads[t := Holding(q.contents[0])])
    else Receive(s, t, woken)
  }

  /** `dkr_v11_asset_mutex_release`. */
  function Release(s: State, t: Thread, message: Message, woken: Option<Thread>): (r: State) {
    var q := s.queue;
    if CanSendWithoutScheduling(q) then
      State(q.(contents := q.contents + [message]), s.threads[t := Idle])
    else Send(s, t, message, woken)
  }

  // ---------------------------------------------------------------------
  // Runs
  // ---------------------------------------------------------------------

  /** `woken` is the system's choice, should this step wake a thread. */
  datatype Step =
    | DoAcquire(thread: Thread, woken: Option<Thread>)
    | DoRelease(thread: Thread, woken: Option<Thread>)
    | DoRetry(thread: Thread, woken: Option<Thread>)

  /** Clients acquire when idle, release only the message they hold, and retry when woken. */
  predicate Enabled(s: State, step: Step) {
    step.thread in s.threads &&
    match step
    case DoAcquire(t, woken) =>
      s.threads[t] == Idle && (|s.queue.contents| > 0 ==> WakeChoice(s.queue.sendWaiters, woken))
    case DoRelease(t, woken) => s.threads[t].Holding? && WakeChoice(s.queue.receiveWaiters, woken)
    case DoRetry(t, woken) =>
      s.threads[t] == Woken && (|s.queue.contents| > 0 ==> WakeChoice(s.queue.sendWaiters, woken))
  }

  /** A step with the fast paths in place; a retry continues inside the system's own receive. */
  function Hooked(s: State, step: Step): (r: State)
    requires Enabled(s, step)
  {
    match step
    case DoAcquire(t, woken) => Acquire(s, t, woken)
    case DoRelease(t, woken) => Release(s, t, s.threads[t].message, woken)
    case DoRetry(t, woken) => Receive(s, t, woken)
  }

  /** The same step through the system's queue only. */
  function Plain(s: State, step: Step): (r: State)
    requires Enabled(s, step)
  {
    match step
    case DoAcquire(t, woken) => Receive(s, t, woken)
    case DoRelease(t, woken) => Send(s, t, s.threads[t].message, woken)
    case DoRetry(t, woken) => Receive(s, t, woken)
  }

  /** The fast paths are indistinguishable from the system's queue. */
  lemma FastPathsRefine(s: State, step: Step)
    requires Enabled(s, step)
    ensures Hooked(s, step) == Plain(s, step)
  {
    match step
    case DoAcquire(t, woken) =>
      if CanReceiveWithoutScheduling(s.queue) { assert Without(s.queue.sendWaiters, woken) == s.queue.sendWaiters; }
    case DoRelease(t, woken) =>
      if CanSendWithoutScheduling(s.queue) { assert Without(s.queue.receiveWaiters, woken) == s.queue.receiveWaiters; }
    case DoRetry(t, woken) =>
  }

  predicate Legal(s: State, steps: seq<Step>)
    decreases |steps|
  {
    steps == [] || (Enabled(s, steps[0]) && Legal(Hooked(s, steps[0]), steps[1..]))
  }

  function Run(s: State, steps: seq<Step>): (r: State)
    requires Legal(s, steps)
    decreases |steps|
  {
    if steps == [] then s else Run(Hooked(s, steps[0]), steps[1..])
  }

  predicate PlainLegal(s: State, steps: seq<Step>)
    decreases |steps|
  {
    steps == [] || (Enabled(s, steps[0]) && PlainLegal(Plain(s, steps[0]), steps[1..]))
  }

  function PlainRun(s: State, steps: seq<Step>): (r: State)
    requires PlainLegal(s, steps)
    decreases |steps|
  {
    if steps == [] then s else PlainRun(Plain(s, steps[0]), steps[1..])
  }

  /** Every interleaving of hooked steps is one of the plain queue, and ends in the same state. */
  lemma {:induction false} RunsRefine(s: State, steps: seq<Step>)
    requires Legal(s, steps)
    ensures PlainLegal(s, steps) && PlainRun(s, steps) == Run(s, steps)
    decreases |steps|
  {
    hide Hooked, Plain, Enabled;
    if steps != [] {
      FastPathsRefine(s, steps[0]);
      RunsRefine(Hooked(s, steps[0]), steps[1..]);
    }
  }

  // ---------------------------------------------------------------------
  // Mutual exclusion
  // ---------------------------------------------------------------------

  function Holders(threads: map<Thread, Status>): (h: set<Thread>) {
    set t | t in threads && threads[t].Holding?
  }

  /** The token is in the queue and nobody holds it, or exactly one thread holds it and the queue is empty. */
  ghost predicate OneToken(s: State, token: Message) {
    || (s.queue.contents == [token] && Holders(s.threads) == {})
    || (s.queue.contents == []
        && exists t :: t in s.threads && Holders(s.threads) == {t} && s.threads[t] == Holding(token))
  }

  /** A free token with parked receivers always has a woken thread on its way: no wake-up is lost. */
  predicate NoLostWakeup(s: State) {
    |s.queue.contents| > 0 && s.queue.receiveWaiters != {} ==>
      exists t :: t in s.threads && s.threads[t] == Woken
  }

  /** Parked threads are exactly the waiting ones; nobody ever waits to send. */
  ghost predicate Parked(s: State) {
    && s.queue.capacity >= 1 && s.queue.sendWaiters == {}
    && forall t :: t in s.queue.receiveWaiters <==> t in s.threads && s.threads[t] == Waiting
  }

  ghost predicate Inv(s: State, token: Message) {
    OneToken(s, token) && Parked(s) && NoLostWakeup(s)
  }

  function Start(capacity: nat, token: Message, threads: set<Thread>): (s: State) {
    State(Queue([token], capacity, {}, {}), map t | t in threads :: Idle)
  }

  lemma StartInv(capacity: nat, token: Message, threads: set<Thread>)
    requires capacity >= 1
    ensures Inv(Start(capacity, token, threads), token)
  {
    var s := Start(capacity, token, threads);
    assert Holders(s.threads) == {};
  }

  lemma ReceiveKeepsInv(s: State, t: Thread, token: Message)
    requires Inv(s, token) && t in s.threads && (s.threads[t] == Idle || s.threads[t] == Woken)
    ensures Inv(Receive(s, t, None), token)
  {
    var r := Receive(s, t, None);
    if |s.queue.contents| > 0 {
      assert Holders(r.threads) == {t};
      assert r.queue.contents == [];
    } else {
      assert Holders(r.threads) == Holders(s.threads);
    }
  }

  lemma SendKeepsInv(s: State, t: Thread, woken: Option<Thread>, token: Message)
    requires Inv(s, token) && t in s.threads && s.threads[t].Holding? && WakeChoice(s.queue.receiveWaiters, woken)
    ensures s.threads[t].message == token && |s.queue.contents| < s.queue.capacity
    ensures Inv(Send(s, t, token, woken), token)
  {
    assert t in Holders(s.threads);
    assert Holders(s.threads) == {t};
    var r := Send(s, t, token, woken);
    forall x | x in r.threads ensures !r.threads[x].Holding? {
      assert x in s.threads && s.threads[x].Holding? ==> x in Holders(s.threads);
    }
    assert Holders(r.threads) == {};
    if woken.Some? { assert r.threads[woken.value] == Woken; }
  }

  lemma StepKeepsInv(s: State, step: Step, token: Message)
    requires Inv(s, token) && Enabled(s, step)
    ensures Inv(Hooked(s, step), token)
  {
    FastPathsRefine(s, step);
    hide Hooked, Inv;
    InvFacts(s, token);
    match step
    case DoAcquire(t, woken) => ReceiveKeepsInv(s, t, token); NoSenderToWake(s, t, woken);
    case DoRelease(t, woken) => SendKeepsInv(s, t, woken, token);
    case DoRetry(t, woken) => ReceiveKeepsInv(s, t, token); NoSenderToWake(s, t, woken);
  }

  lemma InvFacts(s: State, token: Message)
    requires Inv(s, token)
    ensures s.queue.sendWaiters == {}
  {
  }

  lemma NoSenderToWake(s: State, t: Thread, woken: Option<Thread>)
    requires s.queue.sendWaiters == {} && (|s.queue.contents| > 0 ==> WakeChoice(s.queue.sendWaiters, woken))
    ensures Receive(s, t, woken) == Receive(s, t, None)
  {
  }

  lemma {:induction false} RunKeepsInv(s: State, steps: seq<Step>, token: Message)
    requires Inv(s, token) && Legal(s, steps)
    ensures Inv(Run(s, steps), token)
    decreases |steps|
  {
    hide Inv, Hooked, Enabled;
    if steps != [] {
      StepKeepsInv(s, steps[0], token);
      RunKeepsInv(Hooked(s, steps[0]), steps[1..], token);
    }
  }

  /** From one token, in any interleaving: at most one thread holds it, it is never lost, duplicated or
      replaced, a release never fails, and no wake-up is lost. */
  lemma MutualExclusion(capacity: nat, token: Message, threads: set<Thread>, steps: seq<Step>, a: Thread, b: Thread)
    requires capacity >= 1 && Legal(Start(capacity, token, threads), steps)
    ensures var r := Run(Start(capacity, token, threads), steps);
            && (a in r.threads && b in r.threads && r.threads[a].Holding? && r.threads[b].Holding? ==> a == b)
            && (a in r.threads && r.threads[a].Holding? ==> r.threads[a].message == token && r.queue.contents == [])
            && (Holders(r.threads) == {} ==> r.queue.contents == [token])
            && (Holders(r.threads) != {} ==> |r.queue.contents| < r.queue.capacity)
            && NoLostWakeup(r)
  {
    hide Legal, Run;
    StartInv(capacity, token, threads);
    RunKeepsInv(Start(capacity, token, threads), steps, token);
    var r := Run(Start(capacity, token, threads), steps);
    assert a in r.threads && r.threads[a].Holding? ==> a in Holders(r.threads);
    assert b in r.threads && r.threads[b].Holding? ==> b in Holders(r.threads);
  }

  // ---------------------------------------------------------------------
  // The ring buffer
  // ---------------------------------------------------------------------

  class Ring {
    const msg: array<Message>
    var first: nat
    var validCount: nat
    var sendWaiters: set<Thread>
    var receiveWaiters: set<Thread>

    ghost predicate Valid()
      reads this
    {
      validCount <= msg.Length && (msg.Length > 0 ==> first < msg.Length)
    }

    /** The stored messages, oldest first. */
    ghost function Contents(): (s: seq<Message>)
      requires Valid()
      reads this, msg
    {
      seq(validCount, i requires 0 <= i < validCount && Valid() reads this, msg => msg[Index(first, i, msg.Length)])
    }

    ghost function Value(): (q: Queue)
      requires Valid()
      reads this, msg
    {
      Queue(Contents(), msg.Length, sendWaiters, receiveWaiters)
    }

    constructor (msgCount: nat)
      ensures Valid() && fresh(msg) && Value() == Queue([], msgCount, {}, {})
    {
      msg := new Message[msgCount](_ => 0);
      first := 0;
      validCount := 0;
      sendWaiters := {};
      receiveWaiters := {};
    }

    /** The direct receive; declined when it would need the scheduler. */
    method FastReceive() returns (message: Option<Message>)
      requires Valid()
      modifies this
      ensures Valid()
      ensures message.Some? <==> CanReceiveWithoutScheduling(old(Value()))
      ensures message.None? ==> Value() == old(Value())
      ensures message.Some? ==>
        message.value == old(Contents())[0] && Value() == old(Value()).(contents := old(Contents())[1..])
    {
      if !(validCount > 0 && msg.Length > 0 && sendWaiters == {}) {
        return None;
      }
      message := Some(msg[first]);
      IndexZero(first, msg.Length);
      var next := (first + 1) % msg.Length;
      forall i | 0 <= i < validCount - 1
        ensures Index(next, i, msg.Length) == Index(first, i + 1, msg.Length)
      {
        IndexShift(first, i, msg.Length);
      }
      first := next;
      validCount := validCount - 1;
    }

    /** The direct send; declined when it would need the scheduler. */
    method FastSend(message: Message) returns (sent: bool)
      requires Valid()
      modifies this, msg
      ensures Valid()
      ensures sent <==> CanSendWithoutScheduling(old(Value()))
      ensures !sent ==> Value() == old(Value())
      ensures sent ==> Value() == old(Value()).(contents := old(Contents()) + [message])
    {
      if !(validCount < msg.Length && msg.Length > 0 && receiveWaiters == {}) {
        return false;
      }
      var last := (first + validCount) % msg.Length;
      forall i | 0 <= i < validCount
        ensures Index(first, i, msg.Length) != last
      {
        IndexDistinct(first, i, validCount, msg.Length);
      }
      msg[last] := message;
      validCount := validCount + 1;
      return true;
    }
  }

  function Index(first: nat, i: nat, n: nat): (k: nat)
    requires n > 0
    ensures k < n
  {
    (first + i) % n
  }

  lemma IndexZero(first: nat, n: nat)
    requires first < n
    ensures Index(first, 0, n) == first
  {
  }

  lemma IndexIs(first: nat, i: nat, n: nat)
    requires first < n && i <= n
    ensures Index(first, i, n) == if first + i < n then first + i else first + i - n
  {
    if first + i >= n { ModOnce(first + i, n); } else { ModNone(first + i, n); }
  }

  lemma ModNone(x: nat, n: nat)
    requires x < n
    ensures x % n == x
  {
    var q := x / n;
    assert x == n * q + x % n;
    assert q >= 1 ==> n * q >= n;
  }

  lemma ModOnce(x: nat, n: nat)
    requires 0 < n <= x < 2 * n
    ensures x % n == x - n
  {
    var q := x / n;
    assert x == n * q + x % n;
    assert q >= 2 ==> n * q >= n * 2;
    assert q <= 0 ==> n * q <= 0;
  }

  lemma IndexShift(first: nat, i: nat, n: nat)
    requires first < n && i + 1 < n
    ensures Index((first + 1) % n, i, n) == Index(first, i + 1, n)
  {
    IndexIs(first, 1, n);
    IndexIs(first, i + 1, n);
    IndexIs(Index(first, 1, n), i, n);
  }

  lemma IndexDistinct(first: nat, i: nat, j: nat, n: nat)
    requires first < n && i < j < n
    ensures Index(first, i, n) != Index(first, j, n)
  {
    IndexIs(first, i, n);
    IndexIs(first, j, n);
  }
}
