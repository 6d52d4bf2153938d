/** The blocking protocol of queue.c: tasks that wait for a queue, interrupts
    that post to it while it is locked, and the promise that no wake-up is lost.

    One queue on one core.  A step is one critical section, or one access made
    with the scheduler suspended; interrupts may run between any two steps.
 */
module QueueProtocol {

  type Task = nat

  /** queueUNLOCKED; a locked queue counts up from 0 (queueLOCKED_UNMODIFIED). */
  const UNLOCKED := -1

  /** Adding one to an int8_t. */
  function Increment8(x: int): int {
    if x == 127 then -128 else x + 1
  }

  function Positive(x: int): nat {
    if x > 0 then x else 0
  }

  /** The tasks waiting for one kind of event, and the lock that counts the
      events an interrupt raises meanwhile.  A woken task has been taken off
      the event list by an event and has not yet tried the queue again. */
  datatype Side = Side(waiting: seq<Task>, woken: set<Task>, lock: int) {

    /** xTaskRemoveFromEventList on a non-empty list. */
    function Wake(): Side {
      if waiting == [] then this
      else Side(waiting[1..], woken + {waiting[0]}, lock)
    }

    function WakeMany(n: nat): Side
      decreases n
    {
      if n == 0 then this else Wake().WakeMany(n - 1)
    }

    /** An event raised by an interrupt. */
    function Post(): Side {
      if lock == UNLOCKED then Wake() else this.(lock := Increment8(lock))
    }

    function PostMany(n: nat): Side {
      if n == 0 then this else PostMany(n - 1).Post()
    }

    /** The task tries the queue again. */
    function Retry(t: Task): Side {
      this.(woken := woken - {t})
    }

    /** The task enters the event list at place k, which its priority decides. */
    function Insert(t: Task, k: nat): Side
      requires k <= |waiting|
    {
      this.(waiting := waiting[..k] + [t] + waiting[k..])
    }

    /** A tick takes waiting task k off the event list. */
    function Expire(k: nat): Side
      requires k < |waiting|
    {
      this.(waiting := waiting[..k] + waiting[k + 1..])
    }

    function Lock(): Side {
      if lock == UNLOCKED then this.(lock := 0) else this
    }

    /** One of the two halves of prvUnlockQueue. */
    function Unlock(): Side {
      WakeMany(Positive(lock)).(lock := UNLOCKED)
    }

    ghost predicate WellFormed() {
      && (forall i, j :: 0 <= i < j < |waiting| ==> waiting[i] != waiting[j])
      && (forall i :: 0 <= i < |waiting| ==> waiting[i] !in woken)
    }

    ghost predicate Mentions(t: Task) {
      t in waiting || t in woken
    }

    /** With supply units to be had: if a task waits, every unit is spoken for
        by a woken task or will wake one at unlock.  A task that has decided to
        block has seen no unit since the queue was locked. */
    ghost predicate Accounted(supply: int, blocking: bool) {
      && WellFormed()
      && (waiting != [] ==> supply <= |woken| + Positive(lock))
      && (blocking ==> supply <= Positive(lock))
    }
  }

  /** The first n tasks of an event list are off it and woken, or all if there
      are fewer; the others stay in order. */
  ghost predicate FirstWoken(n: nat, waiting: seq<Task>, woken: set<Task>, waiting': seq<Task>, woken': set<Task>) {
    var k := if n < |waiting| then n else |waiting|;
    && waiting' == waiting[k..]
    && (forall t :: t in woken' <==> t in woken || t in waiting[..k])
  }

  /** Waking a task covers one more unit. */
  lemma WakeAccounted(s: Side, supply: int, supply': int, blocking: bool)
    requires s.Accounted(supply, blocking)
    requires supply' <= supply + 1 && (blocking ==> supply' <= Positive(s.lock))
    ensures s.Wake().Accounted(supply', blocking)
    ensures forall t :: s.Wake().Mentions(t) <==> s.Mentions(t)
  {
    if s.waiting != [] {
      assert s.waiting == [s.waiting[0]] + s.waiting[1..];
    }
  }

  /** So does counting the event while the side is locked. */
  lemma PostAccounted(s: Side, supply: int, supply': int, blocking: bool)
    requires s.Accounted(supply, blocking) && UNLOCKED <= s.lock < 127
    requires supply' <= supply + 1 && (blocking ==> s.lock != UNLOCKED)
    ensures s.Post().Accounted(supply', blocking)
    ensures forall t :: s.Post().Mentions(t) <==> s.Mentions(t)
  {
    if s.lock == UNLOCKED {
      WakeAccounted(s, supply, supply', blocking);
    }
  }

  /** A task that tries again takes a unit, or there was none. */
  lemma RetryAccounted(s: Side, t: Task, supply: int, supply': int)
    requires s.Accounted(supply, false)
    requires supply' <= supply - 1 || supply' <= 0
    ensures s.Retry(t).Accounted(supply', false)
  {
    assert |s.woken| <= |s.woken - {t}| + 1 by {
      if t in s.woken {
        assert s.woken == (s.woken - {t}) + {t};
      } else {
        assert s.woken == s.woken - {t};
      }
    }
  }

  /** A task that looks without taking passes the unit on to the next. */
  lemma PeekAccounted(s: Side, t: Task, supply: int)
    requires s.Accounted(supply, false)
    ensures s.Retry(t).Wake().Accounted(supply, false)
  {
    var s' := s.Retry(t);
    RetryAccounted(s, t, supply, supply - 1);
    WakeAccounted(s', supply - 1, supply, false);
  }

  lemma InsertAccounted(s: Side, t: Task, k: nat, supply: int)
    requires s.Accounted(supply, true) && k <= |s.waiting| && !s.Mentions(t)
    ensures s.Insert(t, k).Accounted(supply, false)
  {
    var w := s.Insert(t, k).waiting;
    assert forall i :: 0 <= i < |w| ==> w[i] == if i < k then s.waiting[i] else if i == k then t else s.waiting[i - 1];
  }

  lemma ExpireAccounted(s: Side, k: nat, supply: int)
    requires s.Accounted(supply, false) && k < |s.waiting|
    ensures s.Expire(k).Accounted(supply, false)
  {
    var w := s.Expire(k).waiting;
    assert forall i :: 0 <= i < |w| ==> w[i] == if i < k then s.waiting[i] else s.waiting[i + 1];
  }

  lemma {:induction false} WakeManyAccounted(s: Side, supply: int, n: nat)
    requires s.WellFormed() && (s.waiting != [] ==> supply <= |s.woken| + n)
    ensures var s' := s.WakeMany(n);
            s'.lock == s.lock && s'.WellFormed() && (s'.waiting != [] ==> supply <= |s'.woken|)
    ensures forall t :: s.WakeMany(n).Mentions(t) <==> s.Mentions(t)
    decreases n
  {
    if n > 0 {
      WakeManyAccounted(s.Wake(), supply, n - 1);
    }
  }

  /** The kinds of calls that can block. */
  datatype Call = Receive | Peek | Send

  /** How far the task that has the scheduler suspended and the queue locked has got. */
  datatype Phase =
    | Locked      // the queue is locked
    | MustBlock   // no time-out yet, and nothing to be had when it looked
    | Finished    // on the event list, or going to try again, or timed out
    | HalfUnlocked // the first half of prvUnlockQueue is done

  datatype Window = Closed | Open(task: Task, call: Call, phase: Phase)

  datatype Queue = Queue(length: nat, itemSize: nat, messages: nat, receivers: Side, senders: Side, window: Window) {

    predicate Blocked(call: Call) {
      if call == Send then messages >= length else messages == 0
    }

    /** Room for one more message, or the single one may be replaced. */
    predicate CanSend(overwrite: bool) {
      messages < length || overwrite
    }

    /** prvCopyDataToQueue; an item without a size is never replaced. */
    function AfterCopyIn(overwrite: bool): nat {
      if overwrite && itemSize > 0 && messages > 0 then messages else messages + 1
    }

    /** prvIsQueueFull and prvIsQueueEmpty. */
    predicate FoundBlocked(call: Call) {
      if call == Send then messages == length else messages == 0
    }
  }

  datatype Step =
    | TaskReceive(t: Task)                    // xQueueReceive, xQueueSemaphoreTake: a unit is there
    | TaskPeek(t: Task)                       // xQueuePeek: a unit is there
    | TaskSend(t: Task, overwrite: bool)      // xQueueGenericSend: there is room
    | TaskMiss(t: Task, call: Call)           // the same calls when there is nothing to be had
    | LockQueue(t: Task, call: Call)          // vTaskSuspendAll and prvLockQueue
    | CheckBlocked                            // no time-out; prvIsQueueEmpty or prvIsQueueFull
    | TimedOut                                // xTaskCheckForTimeOut says so
    | Place(k: nat)                           // vTaskPlaceOnEventList
    | UnlockTx                                // first half of prvUnlockQueue
    | UnlockRx                                // second half, and xTaskResumeAll
    | IsrSend(overwrite: bool)
    | IsrReceive
    | ExpireReceiver(k: nat)                  // a tick ends the wait of receiver k
    | ExpireSender(k: nat)

  predicate Enabled(q: Queue, step: Step) {
    match step
    case TaskReceive(_) => q.window == Closed && !q.Blocked(Receive)
    case TaskPeek(_) => q.window == Closed && !q.Blocked(Peek)
    case TaskSend(_, overwrite) =>
      q.window == Closed && q.CanSend(overwrite) && (overwrite ==> q.length == 1)
    case TaskMiss(_, call) => q.window == Closed && q.Blocked(call)
    case LockQueue(t, _) =>
      q.window == Closed && !(t in q.receivers.waiting || t in q.receivers.woken) &&
      !(t in q.senders.waiting || t in q.senders.woken)
    case CheckBlocked => q.window.Open? && q.window.phase == Locked
    case TimedOut => q.window.Open? && q.window.phase == Locked
    case Place(k) =>
      q.window.Open? && q.window.phase == MustBlock &&
      k <= |(if q.window.call == Send then q.senders else q.receivers).waiting|
    case UnlockTx => q.window.Open? && q.window.phase == Finished
    case UnlockRx => q.window.Open? && q.window.phase == HalfUnlocked
    case IsrSend(overwrite) => q.CanSend(overwrite) && (overwrite ==> q.length == 1)
    case IsrReceive => q.messages > 0
    case ExpireReceiver(k) => q.window == Closed && k < |q.receivers.waiting|
    case ExpireSender(k) => q.window == Closed && k < |q.senders.waiting|
  }

  function Apply(q: Queue, step: Step): Queue
    requires Enabled(q, step)
  {
    match step
    case TaskReceive(t) =>
      q.(messages := q.messages - 1, receivers := q.receivers.Retry(t), senders := q.senders.Wake())
    case TaskPeek(t) => q.(receivers := q.receivers.Retry(t).Wake())
    case TaskSend(t, overwrite) =>
      q.(messages := q.AfterCopyIn(overwrite), receivers := q.receivers.Wake(), senders := q.senders.Retry(t))
    case TaskMiss(t, call) =>
      if call == Send then q.(senders := q.senders.Retry(t)) else q.(receivers := q.receivers.Retry(t))
    case LockQueue(t, call) =>
      q.(receivers := q.receivers.Lock(), senders := q.senders.Lock(), window := Open(t, call, Locked))
    case CheckBlocked =>
      q.(window := q.window.(phase := if q.FoundBlocked(q.window.call) then MustBlock else Finished))
    case TimedOut => q.(window := q.window.(phase := Finished))
    case Place(k) =>
      var q' := q.(window := q.window.(phase := Finished));
      if q.window.call == Send then q'.(senders := q.senders.Insert(q.window.task, k))
      else q'.(receivers := q.receivers.Insert(q.window.task, k))
    case UnlockTx => q.(receivers := q.receivers.Unlock(), window := q.window.(phase := HalfUnlocked))
    case UnlockRx => q.(senders := q.senders.Unlock(), window := Closed)
    case IsrSend(overwrite) => q.(messages := q.AfterCopyIn(overwrite), receivers := q.receivers.Post())
    case IsrReceive => q.(messages := q.messages - 1, senders := q.senders.Post())
    case ExpireReceiver(k) => q.(receivers := q.receivers.Expire(k))
    case ExpireSender(k) => q.(senders := q.senders.Expire(k))
  }

  /** The step does not push a lock count past the largest int8_t. */
  predicate Fits(q: Queue, step: Step) {
    && (step.IsrSend? ==> q.receivers.lock < 127)
    && (step.IsrReceive? ==> q.senders.lock < 127)
  }

  ghost predicate Invariant(q: Queue) {
    && (q.itemSize > 0 ==> q.messages <= q.length)
    && q.receivers.Accounted(q.messages, q.window.Open? && q.window.phase == MustBlock && q.window.call != Send)
    && q.senders.Accounted(q.length - q.messages,
                           q.window.Open? && q.window.phase == MustBlock && q.window.call == Send)
    && (q.receivers.lock == UNLOCKED <==> q.window == Closed || q.window.phase == HalfUnlocked)
    && (q.senders.lock == UNLOCKED <==> q.window == Closed)
    && q.receivers.lock >= UNLOCKED && q.senders.lock >= UNLOCKED
    && (q.window.Open? && q.window.phase in {Locked, MustBlock} ==>
          !q.receivers.Mentions(q.window.task) && !q.senders.Mentions(q.window.task))
  }

  lemma TaskStepKeepsInvariant(q: Queue, step: Step)
    requires Invariant(q) && Enabled(q, step)
    requires step.TaskReceive? || step.TaskPeek? || step.TaskSend? || step.TaskMiss?
    ensures Invariant(Apply(q, step))
  {
    var m, f := q.messages, q.length - q.messages;
    match step
    case TaskReceive(t) =>
      RetryAccounted(q.receivers, t, m, m - 1);
      WakeAccounted(q.senders, f, f + 1, false);
    case TaskPeek(t) =>
      PeekAccounted(q.receivers, t, m);
    case TaskSend(t, overwrite) =>
      var m' := q.AfterCopyIn(overwrite);
      WakeAccounted(q.receivers, m, m', false);
      RetryAccounted(q.senders, t, f, q.length - m');
    case TaskMiss(t, call) =>
      if call == Send {
        RetryAccounted(q.senders, t, f, f);
      } else {
        RetryAccounted(q.receivers, t, m, m);
      }
  }

  lemma WindowStepKeepsInvariant(q: Queue, step: Step)
    requires Invariant(q) && Enabled(q, step)
    requires step.LockQueue? || step.CheckBlocked? || step.TimedOut? || step.Place? || step.UnlockTx? || step.UnlockRx?
    ensures Invariant(Apply(q, step))
  {
    match step
    case UnlockTx =>
      WakeManyAccounted(q.receivers, q.messages, Positive(q.receivers.lock));
    case UnlockRx =>
      WakeManyAccounted(q.senders, q.length - q.messages, Positive(q.senders.lock));
    case Place(k) =>
      if q.window.call == Send {
        InsertAccounted(q.senders, q.window.task, k, q.length - q.messages);
      } else {
        InsertAccounted(q.receivers, q.window.task, k, q.messages);
      }
    case _ =>
  }

  lemma InterruptStepKeepsInvariant(q: Queue, step: Step)
    requires Invariant(q) && Enabled(q, step) && Fits(q, step)
    requires step.IsrSend? || step.IsrReceive? || step.ExpireReceiver? || step.ExpireSender?
    ensures Invariant(Apply(q, step))
  {
    var m, f := q.messages, q.length - q.messages;
    var blocking := q.window.Open? && q.window.phase == MustBlock;
    match step
    case IsrSend(overwrite) =>
      PostAccounted(q.receivers, m, q.AfterCopyIn(overwrite), blocking && q.window.call != Send);
    case IsrReceive =>
      PostAccounted(q.senders, f, f + 1, blocking && q.window.call == Send);
    case ExpireReceiver(k) =>
      ExpireAccounted(q.receivers, k, m);
    case ExpireSender(k) =>
      ExpireAccounted(q.senders, k, f);
  }

  lemma StepKeepsInvariant(q: Queue, step: Step)
    requires Invariant(q) && Enabled(q, step) && Fits(q, step)
    ensures Invariant(Apply(q, step))
  {
    if step.TaskReceive? || step.TaskPeek? || step.TaskSend? || step.TaskMiss? {
      TaskStepKeepsInvariant(q, step);
    } else if step.IsrSend? || step.IsrReceive? || step.ExpireReceiver? || step.ExpireSender? {
      InterruptStepKeepsInvariant(q, step);
    } else {
      WindowStepKeepsInvariant(q, step);
    }
  }

  /** A new queue or semaphore with some messages in it. */
  function Initial(length: nat, itemSize: nat, messages: nat): Queue {
    Queue(length, itemSize, messages, Side([], {}, UNLOCKED), Side([], {}, UNLOCKED), Closed)
  }

  /** Every step is possible where it is taken, and no lock count wraps. */
  ghost predicate LegalRun(q: Queue, steps: seq<Step>)
    decreases |steps|
  {
    steps == [] ||
    (Enabled(q, steps[0]) && Fits(q, steps[0]) && LegalRun(Apply(q, steps[0]), steps[1..]))
  }

  ghost function Final(q: Queue, steps: seq<Step>): Queue
    requires LegalRun(q, steps)
    decreases |steps|
  {
    if steps == [] then q else Final(Apply(q, steps[0]), steps[1..])
  }

  lemma {:induction false} RunKeepsInvariant(q: Queue, steps: seq<Step>)
    requires Invariant(q) && LegalRun(q, steps)
    ensures Invariant(Final(q, steps))
    decreases |steps|
  {
    if steps != [] {
      StepKeepsInvariant(q, steps[0]);
      RunKeepsInvariant(Apply(q, steps[0]), steps[1..]);
    }
  }

  /** No wake-up is lost: whatever has happened, once the queue is unlocked a
      task waits for a message only if every message is spoken for by a task
      already woken, and waits for room only if all the room is. */
  lemma NoLostWakeup(length: nat, itemSize: nat, messages: nat, steps: seq<Step>)
    requires messages <= length && LegalRun(Initial(length, itemSize, messages), steps)
    ensures var q := Final(Initial(length, itemSize, messages), steps);
            q.window == Closed ==>
              && (q.receivers.waiting != [] ==> q.messages <= |q.receivers.woken|)
              && (q.senders.waiting != [] ==> q.length - q.messages <= |q.senders.woken|)
  {
    RunKeepsInvariant(Initial(length, itemSize, messages), steps);
  }

  /** In particular, when every woken task has tried again, a task waits for
      a message only on an empty queue, and for room only on a full one.  No
      queue of items with a size holds more than its length. */
  lemma SettledQueue(length: nat, itemSize: nat, messages: nat, steps: seq<Step>)
    requires messages <= length && LegalRun(Initial(length, itemSize, messages), steps)
    ensures var q := Final(Initial(length, itemSize, messages), steps);
            (itemSize > 0 ==> q.messages <= length) &&
            (q.window == Closed ==>
              && (q.receivers.waiting != [] && q.receivers.woken == {} ==> q.messages == 0)
              && (q.senders.waiting != [] && q.senders.woken == {} ==> q.messages >= length))
  {
    RunKeepsInvariant(Initial(length, itemSize, messages), steps);
    RunKeepsLength(Initial(length, itemSize, messages), steps);
  }

  lemma {:induction false} RunKeepsLength(q: Queue, steps: seq<Step>)
    requires LegalRun(q, steps)
    ensures Final(q, steps).length == q.length && Final(q, steps).itemSize == q.itemSize
    decreases |steps|
  {
    if steps != [] {
      RunKeepsLength(Apply(q, steps[0]), steps[1..]);
    }
  }

  // ---------- No message and no task is lost

  /** The messages a step puts in and takes out. */
  function PutIn(q: Queue, step: Step): nat {
    match step
    case TaskSend(_, overwrite) => if overwrite && q.itemSize > 0 && q.messages > 0 then 0 else 1
    case IsrSend(overwrite) => if overwrite && q.itemSize > 0 && q.messages > 0 then 0 else 1
    case _ => 0
  }

  function TakenOut(step: Step): nat {
    if step.TaskReceive? || step.IsrReceive? then 1 else 0
  }

  /** The same over a run. */
  function AllPutIn(q: Queue, steps: seq<Step>): nat
    requires LegalRun(q, steps)
    decreases |steps|
  {
    if steps == [] then 0 else PutIn(q, steps[0]) + AllPutIn(Apply(q, steps[0]), steps[1..])
  }

  function AllTakenOut(steps: seq<Step>): nat {
    if steps == [] then 0 else TakenOut(steps[0]) + AllTakenOut(steps[1..])
  }

  /** A queue holds what was put in and not taken out; a send that replaces a
      message puts none in. */
  lemma {:induction false} MessagesConserved(q: Queue, steps: seq<Step>)
    requires LegalRun(q, steps)
    ensures Final(q, steps).messages + AllTakenOut(steps) == q.messages + AllPutIn(q, steps)
    decreases |steps|
  {
    if steps != [] {
      MessagesConserved(Apply(q, steps[0]), steps[1..]);
    }
  }

  /** The task goes on the event list of the receivers. */
  predicate JoinsReceivers(q: Queue, step: Step, t: Task) {
    step.Place? && q.window.Open? && q.window.call != Send && q.window.task == t
  }

  predicate JoinsSenders(q: Queue, step: Step, t: Task) {
    step.Place? && q.window.Open? && q.window.call == Send && q.window.task == t
  }

  /** The wait of the task is over: it tries again, or a tick ends it. */
  predicate LeavesReceivers(q: Queue, step: Step, t: Task) {
    match step
    case TaskReceive(u) => u == t
    case TaskPeek(u) => u == t
    case TaskMiss(u, call) => u == t && call != Send
    case ExpireReceiver(k) => k < |q.receivers.waiting| && q.receivers.waiting[k] == t
    case _ => false
  }

  predicate LeavesSenders(q: Queue, step: Step, t: Task) {
    match step
    case TaskSend(u, _) => u == t
    case TaskMiss(u, call) => u == t && call == Send
    case ExpireSender(k) => k < |q.senders.waiting| && q.senders.waiting[k] == t
    case _ => false
  }

  predicate Tries(step: Step, t: Task) {
    (step.TaskReceive? || step.TaskPeek? || step.TaskSend? || step.TaskMiss?) && step.t == t
  }

  /** A task is waiting or woken from when it goes on the event list until it
      tries again or a tick ends its wait; while it waits it does not run. */
  lemma WaitersExactly(q: Queue, step: Step, t: Task)
    requires Invariant(q) && Enabled(q, step)
    requires Tries(step, t) ==> t !in q.receivers.waiting && t !in q.senders.waiting
    ensures Apply(q, step).receivers.Mentions(t) <==>
            JoinsReceivers(q, step, t) || (q.receivers.Mentions(t) && !LeavesReceivers(q, step, t))
    ensures Apply(q, step).senders.Mentions(t) <==>
            JoinsSenders(q, step, t) || (q.senders.Mentions(t) && !LeavesSenders(q, step, t))
  {
    if step == UnlockTx || step == UnlockRx {
      UnlockMentions(q.receivers, t);
      UnlockMentions(q.senders, t);
    } else if step.ExpireReceiver? {
      ExpireMentions(q.receivers, step.k, t);
    } else if step.ExpireSender? {
      ExpireMentions(q.senders, step.k, t);
    }
  }

  lemma UnlockMentions(s: Side, t: Task)
    ensures s.Unlock().Mentions(t) <==> s.Mentions(t)
  {
    var n := Positive(s.lock);
    WakeManyFirst(s, n);
    var k := if n < |s.waiting| then n else |s.waiting|;
    assert s.waiting == s.waiting[..k] + s.waiting[k..];
  }

  lemma ExpireMentions(s: Side, k: nat, t: Task)
    requires s.WellFormed() && k < |s.waiting|
    ensures s.Expire(k).Mentions(t) <==> s.Mentions(t) && s.waiting[k] != t
  {
    assert s.waiting == s.waiting[..k] + [s.waiting[k]] + s.waiting[k + 1..];
  }

  // ---------- What the 8-bit lock count costs

  lemma {:induction false} WakeManyEnd(s: Side, n: nat)
    ensures s.WakeMany(n).Wake() == s.WakeMany(n + 1)
    decreases n
  {
    if n > 0 {
      WakeManyEnd(s.Wake(), n - 1);
    }
  }

  /** Waking n tasks takes the first n off the event list, or all of them. */
  lemma {:induction false} WakeManyFirst(s: Side, n: nat)
    ensures var s' := s.WakeMany(n);
            FirstWoken(n, s.waiting, s.woken, s'.waiting, s'.woken) && s'.lock == s.lock
    decreases n
  {
    if n > 0 {
      WakeManyFirst(s.Wake(), n - 1);
      if s.waiting != [] {
        var k := if n < |s.waiting| then n else |s.waiting|;
        assert s.waiting[1..][k - 1..] == s.waiting[k..];
        assert s.waiting[..k] == [s.waiting[0]] + s.waiting[1..][..k - 1];
      }
    }
  }

  lemma {:induction false} WakeManyShape(s: Side, n: nat)
    requires s.WellFormed()
    ensures var k := if n < |s.waiting| then n else |s.waiting|;
            && s.WakeMany(n).waiting == s.waiting[k..] && s.WakeMany(n).lock == s.lock
            && |s.WakeMany(n).woken| == |s.woken| + k
    decreases n
  {
    if n > 0 {
      if s.waiting == [] {
        WakeManyEmpty(s, n);
      } else {
        WakeKeepsForm(s);
        WakeManyShape(s.Wake(), n - 1);
      }
    }
  }

  lemma WakeKeepsForm(s: Side)
    requires s.WellFormed() && s.waiting != []
    ensures s.Wake().WellFormed() && |s.Wake().woken| == |s.woken| + 1
  {
    assert s.waiting[0] !in s.woken;
  }

  /** The count goes up to 127, on from -128, and at -1 looks like a queue that
      is not locked: from then on each event wakes a task. */
  lemma {:induction false} PostManyShape(s: Side, n: nat)
    requires s.lock == 0
    ensures s.PostMany(n) ==
            if n <= 127 then s.(lock := n)
            else if n <= 254 then s.(lock := n - 256)
            else s.(lock := UNLOCKED).WakeMany(n - 255)
    decreases n
  {
    if n > 0 {
      PostManyShape(s, n - 1);
      if n > 255 {
        WakeManyEnd(s.(lock := UNLOCKED), n - 256);
        WakeManyLock(s.(lock := UNLOCKED), n - 256);
      }
    }
  }

  lemma {:induction false} WakeManyLock(s: Side, n: nat)
    ensures s.WakeMany(n).lock == s.lock
    decreases n
  {
    if n > 0 {
      WakeManyLock(s.Wake(), n - 1);
    }
  }

  /** n events while the side is locked wake enough tasks, one for each event or
      all, if and only if nobody waits, the count has not wrapped, or there are
      as many events after the count has come to look unlocked as tasks wait. */
  lemma PostManyExactly(s: Side, n: nat)
    requires s.WellFormed() && s.lock == 0 && s.woken == {}
    ensures var s' := s.PostMany(n).Unlock();
            (s'.waiting != [] ==> n <= |s'.woken|) <==>
            s.waiting == [] || n <= 127 || n >= 255 + |s.waiting|
  {
    PostManyShape(s, n);
    var unlocked := s.(lock := UNLOCKED);
    if n <= 127 {
      WakeManyShape(s.(lock := n), n);
    } else if n >= 255 {
      WakeManyShape(unlocked, n - 255);
    }
  }

  /** n interrupts that each send one message. */
  function Burst(q: Queue, n: nat): (q': Queue)
    requires q.messages + n <= q.length
    ensures q' == q.(messages := q.messages + n, receivers := q.receivers.PostMany(n))
    decreases n
  {
    if n == 0 then q else Apply(Burst(q, n - 1), IsrSend(false))
  }

  /** n interrupts that each receive one. */
  function ReceiveBurst(q: Queue, n: nat): (q': Queue)
    requires n <= q.messages
    ensures q' == q.(messages := q.messages - n, senders := q.senders.PostMany(n))
    decreases n
  {
    if n == 0 then q else Apply(ReceiveBurst(q, n - 1), IsrReceive)
  }

  /** Any tasks wait on an empty queue, locked by a task that is about to unlock
      it, and n messages arrive from interrupts: no wake-up is lost if and only
      if nobody waits, or n is at most 127, or at least 255 more than wait. */
  lemma SendBurstExactly(q: Queue, n: nat)
    requires q.messages == 0 && n <= q.length && q.window.Open? && q.window.phase == Finished
    requires q.receivers.WellFormed() && q.receivers.lock == 0 && q.receivers.woken == {}
    ensures var q' := Apply(Apply(Burst(q, n), UnlockTx), UnlockRx);
            && q'.window == Closed && q'.messages == n
            && ((q'.receivers.waiting != [] ==> q'.messages <= |q'.receivers.woken|) <==>
                q.receivers.waiting == [] || n <= 127 || n >= 255 + |q.receivers.waiting|)
  {
    PostManyExactly(q.receivers, n);
  }

  /** The same for tasks that wait on a full queue for room. */
  lemma ReceiveBurstExactly(q: Queue, n: nat)
    requires q.messages == q.length && n <= q.length && q.window.Open? && q.window.phase == Finished
    requires q.senders.WellFormed() && q.senders.lock == 0 && q.senders.woken == {}
    ensures var q' := Apply(Apply(ReceiveBurst(q, n), UnlockTx), UnlockRx);
            && q'.window == Closed && q'.length - q'.messages == n
            && ((q'.senders.waiting != [] ==> q'.length - q'.messages <= |q'.senders.woken|) <==>
                q.senders.waiting == [] || n <= 127 || n >= 255 + |q.senders.waiting|)
  {
    PostManyExactly(q.senders, n);
  }

  /** Task t finds the empty queue locked by itself and goes on the event list. */
  function ReceiverBlocks(length: nat, itemSize: nat, t: Task): Queue {
    Apply(Apply(Apply(Initial(length, itemSize, 0), LockQueue(t, Receive)), CheckBlocked), Place(0))
  }

  /** One receiver finds the queue empty and blocks, and n messages arrive from
      interrupts before it unlocks the queue.  It is woken if and only if
      1 <= n <= 127 or n >= 256; from 128 to 255 the wake-up is lost. */
  lemma BurstWakesExactly(length: nat, itemSize: nat, t: Task, n: nat)
    requires n <= length
    ensures var q := Apply(Apply(Burst(ReceiverBlocks(length, itemSize, t), n), UnlockTx), UnlockRx);
            && q.window == Closed && q.messages == n
            && (t in q.receivers.woken <==> 1 <= n <= 127 || n >= 256)
            && (t in q.receivers.waiting <==> n == 0 || 128 <= n <= 255)
  {
    ReceiverBlocked(length, itemSize, t);
    var q := Burst(ReceiverBlocks(length, itemSize, t), n);
    assert q.receivers == Side([t], {}, 0).PostMany(n);
    OnePosted(t, n);
  }

  lemma ReceiverBlocked(length: nat, itemSize: nat, t: Task)
    ensures ReceiverBlocks(length, itemSize, t) ==
            Queue(length, itemSize, 0, Side([t], {}, 0), Side([], {}, 0), Open(t, Receive, Finished))
  {
  }

  /** The same for a sender that finds the queue full and blocks. */
  function SenderBlocks(length: nat, itemSize: nat, t: Task): Queue {
    Apply(Apply(Apply(Initial(length, itemSize, length), LockQueue(t, Send)), CheckBlocked), Place(0))
  }

  /** It is woken by n interrupts that receive under the same condition. */
  lemma RoomWakesExactly(length: nat, itemSize: nat, t: Task, n: nat)
    requires n <= length
    ensures var q := Apply(Apply(ReceiveBurst(SenderBlocks(length, itemSize, t), n), UnlockTx), UnlockRx);
            && q.window == Closed && q.messages == length - n
            && (t in q.senders.woken <==> 1 <= n <= 127 || n >= 256)
            && (t in q.senders.waiting <==> n == 0 || 128 <= n <= 255)
  {
    SenderBlocked(length, itemSize, t);
    var q := ReceiveBurst(SenderBlocks(length, itemSize, t), n);
    assert q.senders == Side([t], {}, 0).PostMany(n);
    OnePosted(t, n);
  }

  lemma SenderBlocked(length: nat, itemSize: nat, t: Task)
    ensures SenderBlocks(length, itemSize, t) ==
            Queue(length, itemSize, length, Side([], {}, 0), Side([t], {}, 0), Open(t, Send, Finished))
  {
  }

  lemma OnePosted(t: Task, n: nat)
    ensures Side([t], {}, 0).PostMany(n).Unlock() ==
            if 1 <= n <= 127 || n >= 256 then Side([], {t}, UNLOCKED) else Side([t], {}, UNLOCKED)
  {
    PostManyShape(Side([t], {}, 0), n);
    if 1 <= n <= 127 {
      WakeManyEmpty(Side([t], {}, n).Wake(), n - 1);
    } else if n >= 256 {
      WakeManyEmpty(Side([t], {}, UNLOCKED).Wake(), n - 256);
    }
  }

  lemma {:induction false} WakeManyEmpty(s: Side, n: nat)
    requires s.waiting == []
    ensures s.WakeMany(n) == s
    decreases n
  {
    if n > 0 {
      WakeManyEmpty(s, n - 1);
    }
  }

  /** The control part of a queue: message count, lock counts and event lists.
      Each method is one critical section of queue.c. */
  class QueueControl {
    const length: nat
    const itemSize: nat
    var messages: nat
    var txLock: int
    var rxLock: int
    var waitingToReceive: seq<Task>
    var waitingToSend: seq<Task>

    ghost var wokenReceivers: set<Task>
    ghost var wokenSenders: set<Task>
    ghost var window: Window

    ghost function View(): Queue
      reads this
    {
      Queue(length, itemSize, messages, Side(waitingToReceive, wokenReceivers, txLock),
            Side(waitingToSend, wokenSenders, rxLock), window)
    }

    constructor (length: nat, itemSize: nat, messages: nat)
      ensures View() == Initial(length, itemSize, messages)
    {
      this.length, this.itemSize, this.messages := length, itemSize, messages;
      txLock, rxLock := UNLOCKED, UNLOCKED;
      waitingToReceive, waitingToSend := [], [];
      wokenReceivers, wokenSenders, window := {}, {}, Closed;
    }

    /** Only an item with a size can take the place of another. */
    ghost predicate Replaces(overwrite: bool, before: nat) {
      overwrite && itemSize > 0 && before > 0
    }

    /** If a task waits to receive, take the first off the event list. */
    method WakeReceiver()
      modifies this`waitingToReceive, this`wokenReceivers
      ensures View() == old(View()).(receivers := old(View()).receivers.Wake())
      ensures FirstWoken(1, old(waitingToReceive), old(wokenReceivers), waitingToReceive, wokenReceivers)
    {
      if waitingToReceive != [] {
        wokenReceivers := wokenReceivers + {waitingToReceive[0]};
        waitingToReceive := waitingToReceive[1..];
      }
    }

    method WakeSender()
      modifies this`waitingToSend, this`wokenSenders
      ensures View() == old(View()).(senders := old(View()).senders.Wake())
      ensures FirstWoken(1, old(waitingToSend), old(wokenSenders), waitingToSend, wokenSenders)
    {
      if waitingToSend != [] {
        wokenSenders := wokenSenders + {waitingToSend[0]};
        waitingToSend := waitingToSend[1..];
      }
    }

    /** The critical section of xQueueReceive and xQueueSemaphoreTake: one message
        less and the first sender woken, or nothing. */
    method TryReceive(ghost t: Task) returns (ok: bool)
      requires window == Closed
      modifies this`messages, this`wokenReceivers, this`waitingToSend, this`wokenSenders
      ensures ok == !old(View()).Blocked(Receive) && ok == (old(messages) > 0)
      ensures messages == old(messages) - (if ok then 1 else 0) && wokenReceivers == old(wokenReceivers) - {t}
      ensures ok ==> FirstWoken(1, old(waitingToSend), old(wokenSenders), waitingToSend, wokenSenders)
      ensures !ok ==> unchanged(`waitingToSend, `wokenSenders)
      ensures View() == Apply(old(View()), if ok then TaskReceive(t) else TaskMiss(t, Receive))
    {
      wokenReceivers := wokenReceivers - {t};
      ok := messages > 0;
      if ok {
        messages := messages - 1;
        WakeSender();
      }
    }

    /** The critical section of xQueuePeek: the next receiver is woken, since the
        message is still there. */
    method TryPeek(ghost t: Task) returns (ok: bool)
      requires window == Closed
      modifies this`waitingToReceive, this`wokenReceivers
      ensures ok == !old(View()).Blocked(Peek) && ok == (messages > 0)
      ensures ok ==> FirstWoken(1, old(waitingToReceive), old(wokenReceivers) - {t}, waitingToReceive, wokenReceivers)
      ensures !ok ==> waitingToReceive == old(waitingToReceive) && wokenReceivers == old(wokenReceivers) - {t}
      ensures View() == Apply(old(View()), if ok then TaskPeek(t) else TaskMiss(t, Peek))
    {
      wokenReceivers := wokenReceivers - {t};
      ok := messages > 0;
      if ok {
        WakeReceiver();
      }
    }

    /** The critical section of xQueueGenericSend: one message more, unless one of
        some size is overwritten, and the first receiver woken, or nothing. */
    method TrySend(ghost t: Task, overwrite: bool) returns (ok: bool)
      requires window == Closed && (overwrite ==> length == 1)
      modifies this`messages, this`wokenSenders, this`waitingToReceive, this`wokenReceivers
      ensures ok == old(View()).CanSend(overwrite) && ok == (old(messages) < length || overwrite)
      ensures View() == Apply(old(View()), if ok then TaskSend(t, overwrite) else TaskMiss(t, Send))
      ensures messages == old(messages) + (if ok && !Replaces(overwrite, old(messages)) then 1 else 0)
      ensures wokenSenders == old(wokenSenders) - {t}
      ensures ok ==> FirstWoken(1, old(waitingToReceive), old(wokenReceivers), waitingToReceive, wokenReceivers)
      ensures !ok ==> unchanged(`waitingToReceive, `wokenReceivers)
    {
      wokenSenders := wokenSenders - {t};
      ok := messages < length || overwrite;
      if ok {
        messages := if overwrite && itemSize > 0 && messages > 0 then messages else messages + 1;
        WakeReceiver();
      }
    }

    /** xQueueGenericSendFromISR and xQueueGiveFromISR: as above, except that the
        event is only counted while the queue is locked. */
    method SendFromISR(overwrite: bool) returns (ok: bool)
      requires overwrite ==> length == 1
      modifies this`messages, this`txLock, this`waitingToReceive, this`wokenReceivers
      ensures ok == old(View()).CanSend(overwrite) && ok == (old(messages) < length || overwrite)
      ensures messages == old(messages) + (if ok && !Replaces(overwrite, old(messages)) then 1 else 0)
      ensures txLock == if ok && old(txLock) != UNLOCKED then Increment8(old(txLock)) else old(txLock)
      ensures ok && old(txLock) == UNLOCKED ==>
                FirstWoken(1, old(waitingToReceive), old(wokenReceivers), waitingToReceive, wokenReceivers)
      ensures !ok || old(txLock) != UNLOCKED ==> unchanged(`waitingToReceive, `wokenReceivers)
      ensures View() == if ok then Apply(old(View()), IsrSend(overwrite)) else old(View())
    {
      ok := messages < length || overwrite;
      if ok {
        var lock := txLock;
        messages := if overwrite && itemSize > 0 && messages > 0 then messages else messages + 1;
        if lock == UNLOCKED {
          WakeReceiver();
        } else {
          txLock := Increment8(lock);
        }
      }
    }

    /** xQueueReceiveFromISR. */
    method ReceiveFromISR() returns (ok: bool)
      modifies this`messages, this`rxLock, this`waitingToSend, this`wokenSenders
      ensures ok == (old(messages) > 0) && messages == old(messages) - if ok then 1 else 0
      ensures rxLock == if ok && old(rxLock) != UNLOCKED then Increment8(old(rxLock)) else old(rxLock)
      ensures ok && old(rxLock) == UNLOCKED ==>
                FirstWoken(1, old(waitingToSend), old(wokenSenders), waitingToSend, wokenSenders)
      ensures !ok || old(rxLock) != UNLOCKED ==> unchanged(`waitingToSend, `wokenSenders)
      ensures View() == if ok then Apply(old(View()), IsrReceive) else old(View())
    {
      ok := messages > 0;
      if ok {
        var lock := rxLock;
        messages := messages - 1;
        if lock == UNLOCKED {
          WakeSender();
        } else {
          rxLock := Increment8(lock);
        }
      }
    }

    /** prvLockQueue, with the scheduler suspended by task t. */
    method Lock(ghost t: Task, ghost call: Call)
      requires Enabled(View(), LockQueue(t, call))
      modifies this`txLock, this`rxLock, this`window
      ensures txLock == if old(txLock) == UNLOCKED then 0 else old(txLock)
      ensures rxLock == if old(rxLock) == UNLOCKED then 0 else old(rxLock)
      ensures View() == Apply(old(View()), LockQueue(t, call))
    {
      if rxLock == UNLOCKED {
        rxLock := 0;
      }
      if txLock == UNLOCKED {
        txLock := 0;
      }
      window := Open(t, call, Locked);
    }

    /** The first critical section of prvUnlockQueue: as many receivers are woken
        as sends were counted. */
    method UnlockSent()
      requires Enabled(View(), UnlockTx)
      modifies this`waitingToReceive, this`wokenReceivers, this`txLock, this`window
      ensures txLock == UNLOCKED
      ensures FirstWoken(Positive(old(txLock)), old(waitingToReceive), old(wokenReceivers),
                         waitingToReceive, wokenReceivers)
      ensures View() == Apply(old(View()), UnlockTx)
    {
      WakeManyFirst(View().receivers, Positive(txLock));
      var lock := txLock;
      ghost var before := View().receivers;
      while lock > 0
        invariant View() == old(View()).(receivers := View().receivers) && txLock == old(txLock)
        invariant before.WakeMany(Positive(before.lock)) == View().receivers.WakeMany(Positive(lock))
      {
        if waitingToReceive == [] {
          WakeManyEmpty(View().receivers, lock);
          break;
        }
        WakeReceiver();
        lock := lock - 1;
      }
      txLock := UNLOCKED;
      window := window.(phase := HalfUnlocked);
    }

    /** The second critical section of prvUnlockQueue: as many senders are woken
        as receives were counted. */
    method UnlockReceived()
      requires Enabled(View(), UnlockRx)
      modifies this`waitingToSend, this`wokenSenders, this`rxLock, this`window
      ensures rxLock == UNLOCKED
      ensures FirstWoken(Positive(old(rxLock)), old(waitingToSend), old(wokenSenders), waitingToSend, wokenSenders)
      ensures View() == Apply(old(View()), UnlockRx)
    {
      WakeManyFirst(View().senders, Positive(rxLock));
      var lock := rxLock;
      ghost var before := View().senders;
      while lock > 0
        invariant View() == old(View()).(senders := View().senders) && rxLock == old(rxLock)
        invariant before.WakeMany(Positive(before.lock)) == View().senders.WakeMany(Positive(lock))
      {
        if waitingToSend == [] {
          WakeManyEmpty(View().senders, lock);
          break;
        }
        WakeSender();
        lock := lock - 1;
      }
      rxLock := UNLOCKED;
      window := Closed;
    }
  }
}
