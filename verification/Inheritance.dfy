/** Priority inheritance: the mutexes of queue.c and the priority changes of
    tasks.c, over any run of take, block, give and time-out.
 */
module Inheritance {
  import opened ListModel

  type Task = nat
  type Mutex = nat

  /** A table with zero for tasks not entered. */
  type Table = map<Task, nat>

  function At(table: Table, t: Task): nat {
    if t in table then table[t] else 0
  }

  /** uxPriority, uxBasePriority and uxMutexesHeld of every task. */
  datatype Tasks = Tasks(priority: Table, base: Table, held: Table)

  /** xTaskPriorityInherit: a task running at another priority blocks. */
  function Inherit(ts: Tasks, holder: Task, current: Task): Tasks {
    if At(ts.priority, holder) < At(ts.priority, current) then
      ts.(priority := ts.priority[holder := At(ts.priority, current)])
    else ts
  }

  /** Its result: the holder has, or already had, an inherited priority. */
  predicate InheritOccurred(ts: Tasks, holder: Task, current: Task) {
    || At(ts.priority, holder) < At(ts.priority, current)
    || At(ts.base, holder) < At(ts.priority, current)
  }

  /** xTaskPriorityDisinherit: the holder gives a mutex back. */
  function Disinherit(ts: Tasks, holder: Task): Tasks
    requires At(ts.held, holder) > 0
  {
    var held := At(ts.held, holder) - 1;
    var ts' := ts.(held := ts.held[holder := held]);
    if At(ts.priority, holder) != At(ts.base, holder) && held == 0 then
      ts'.(priority := ts.priority[holder := At(ts.base, holder)])
    else ts'
  }

  /** vTaskPriorityDisinheritAfterTimeout. */
  function DisinheritAfterTimeout(ts: Tasks, holder: Task, highestWaiting: nat): Tasks {
    var p := if At(ts.base, holder) < highestWaiting then highestWaiting else At(ts.base, holder);
    if At(ts.priority, holder) != p && At(ts.held, holder) == 1 then
      ts.(priority := ts.priority[holder := p])
    else ts
  }

  /** pvTaskIncrementMutexHeldCount. */
  function CountTaken(ts: Tasks, t: Task): Tasks {
    ts.(held := ts.held[t := At(ts.held, t) + 1])
  }

  /** A call of xQueueSemaphoreTake that has blocked at least once: the mutex,
      xInheritanceOccurred, and whether the task is on the event list now. */
  datatype Attempt = Attempt(mutex: Mutex, inherited: bool, blocked: bool)

  /** A mutex without a holder is free.  The event list of a mutex is in item
      value order, the value being the number of priorities less the priority.
      tenure keeps, for a held mutex, the tasks that blocked on it since its
      holder took it and that still wait. */
  datatype System = System(
    tasks: Tasks,
    holder: map<Mutex, Task>,
    waiting: map<Mutex, seq<Entry<Task>>>,
    tenure: map<Mutex, set<Task>>,
    attempts: map<Task, Attempt>
  ) {
    function WaitingFor(m: Mutex): seq<Entry<Task>> {
      if m in waiting then waiting[m] else []
    }

    function Tenure(m: Mutex): set<Task> {
      if m in tenure then tenure[m] else {}
    }

    predicate Blocked(t: Task) {
      t in attempts && attempts[t].blocked
    }
  }

  datatype Step =
    | Take(t: Task, m: Mutex)     // the mutex is free
    | Block(t: Task, m: Mutex)    // the mutex is held
    | Give(t: Task, m: Mutex)
    | Expire(m: Mutex, k: nat)    // a tick takes waiter k off the event list
    | GiveUp(t: Task)             // back from a time-out with the mutex not taken

  predicate Enabled(s: System, step: Step) {
    match step
    case Take(t, m) => m !in s.holder && !s.Blocked(t)
    case Block(t, m) => m in s.holder && !s.Blocked(t)
    case Give(t, m) => m in s.holder && s.holder[m] == t && !s.Blocked(t) && At(s.tasks.held, t) > 0
    case Expire(m, k) => k < |s.WaitingFor(m)|
    case GiveUp(t) => t in s.attempts && !s.attempts[t].blocked
  }

  function Revalued(q: seq<Entry<Task>>, t: Task, value: nat): seq<Entry<Task>> {
    seq(|q|, i requires 0 <= i < |q| => if q[i].owner == t then Entry(value, t) else q[i])
  }

  /** New priorities.  The event list item of a task whose priority changed gets
      the matching value, and keeps its place if it is on a list. */
  function WithTasks(s: System, ts: Tasks, t: Task, top: nat): (r: System)
    ensures r == s.(tasks := ts, waiting := r.waiting)
  {
    if At(ts.priority, t) == At(s.tasks.priority, t) || At(ts.priority, t) > top then s.(tasks := ts)
    else s.(tasks := ts,
            waiting := map m | m in s.waiting :: Revalued(s.waiting[m], t, top - At(ts.priority, t)))
  }

  /** Waiter k leaves the event list of m. */
  function Removed(s: System, m: Mutex, k: nat): System
    requires k < |s.WaitingFor(m)|
  {
    var q := s.WaitingFor(m);
    var w := q[k].owner;
    s.(waiting := s.waiting[m := q[..k] + q[k + 1..]],
       tenure := s.tenure[m := s.Tenure(m) - {w}],
       attempts := if w in s.attempts then s.attempts[w := s.attempts[w].(blocked := false)] else s.attempts)
  }

  /** prvGetDisinheritPriorityAfterTimeout. */
  function HighestWaiting(q: seq<Entry<Task>>, top: nat): nat {
    if q != [] && q[0].value <= top then top - q[0].value else 0
  }

  /** One step; top is the number of priorities. */
  function Apply(s: System, step: Step, top: nat): System
    requires Enabled(s, step)
  {
    match step
    case Take(t, m) =>
      s.(tasks := CountTaken(s.tasks, t), holder := s.holder[m := t], tenure := s.tenure[m := {}],
         attempts := s.attempts - {t})
    case Block(t, m) =>
      var h := s.holder[m];
      var inherited := InheritOccurred(s.tasks, h, t);
      var s' := WithTasks(s, Inherit(s.tasks, h, t), h, top);
      var p := At(s'.tasks.priority, t);
      var e := Entry(if p <= top then top - p else 0, t);
      s'.(waiting := s'.waiting[m := InsertSorted(s'.WaitingFor(m), e)],
          tenure := s'.tenure[m := s'.Tenure(m) + {t}],
          attempts := s'.attempts[t := Attempt(m, inherited, true)])
    case Give(t, m) =>
      var s' := WithTasks(s, Disinherit(s.tasks, t), t, top);
      var s'' := s'.(holder := s'.holder - {m}, tenure := s'.tenure[m := {}]);
      if s''.WaitingFor(m) == [] then s'' else Removed(s'', m, 0)
    case Expire(m, k) =>
      Removed(s, m, k)
    case GiveUp(t) =>
      var m := s.attempts[t].mutex;
      var s' := s.(attempts := s.attempts - {t});
      if s.attempts[t].inherited && m in s.holder then
        var h := s.holder[m];
        WithTasks(s', DisinheritAfterTimeout(s.tasks, h, HighestWaiting(s.WaitingFor(m), top)), h, top)
      else s'
  }

  // ---------- What every run keeps

  ghost function HeldBy(holder: map<Mutex, Task>, t: Task): set<Mutex> {
    set m | m in holder && holder[m] == t
  }

  /** uxMutexesHeld is the number of mutexes that name the task as holder. */
  ghost predicate HeldCounts(held: Table, holder: map<Mutex, Task>) {
    forall t :: At(held, t) == |HeldBy(holder, t)|
  }

  /** A task that holds no mutex runs at its own priority. */
  ghost predicate OwnPriority(ts: Tasks) {
    forall t :: At(ts.held, t) == 0 ==> At(ts.priority, t) == At(ts.base, t)
  }

  ghost predicate Settled(s: System) {
    HeldCounts(s.tasks.held, s.holder) && OwnPriority(s.tasks)
  }

  lemma HeldByTake(holder: map<Mutex, Task>, t: Task, m: Mutex)
    requires m !in holder
    ensures HeldBy(holder[m := t], t) == HeldBy(holder, t) + {m}
    ensures |HeldBy(holder[m := t], t)| == |HeldBy(holder, t)| + 1
    ensures forall u | u != t :: HeldBy(holder[m := t], u) == HeldBy(holder, u)
  {
    assert HeldBy(holder[m := t], t) == HeldBy(holder, t) + {m};
  }

  lemma HeldByGive(holder: map<Mutex, Task>, t: Task, m: Mutex)
    requires m in holder && holder[m] == t
    ensures HeldBy(holder - {m}, t) == HeldBy(holder, t) - {m}
    ensures |HeldBy(holder - {m}, t)| == |HeldBy(holder, t)| - 1
    ensures forall u | u != t :: HeldBy(holder - {m}, u) == HeldBy(holder, u)
  {
    assert m in HeldBy(holder, t);
    assert HeldBy(holder - {m}, t) == HeldBy(holder, t) - {m};
  }

  lemma HolderHolds(s: System, m: Mutex)
    requires Settled(s) && m in s.holder
    ensures At(s.tasks.held, s.holder[m]) > 0
  {
    assert m in HeldBy(s.holder, s.holder[m]);
  }

  lemma CountTakenKeeps(ts: Tasks, holder: map<Mutex, Task>, t: Task, m: Mutex)
    requires HeldCounts(ts.held, holder) && OwnPriority(ts) && m !in holder
    ensures HeldCounts(CountTaken(ts, t).held, holder[m := t]) && OwnPriority(CountTaken(ts, t))
  {
    HeldByTake(holder, t, m);
    var ts' := CountTaken(ts, t);
    forall u
      ensures At(ts'.held, u) == |HeldBy(holder[m := t], u)|
    {
      assert At(ts.held, u) == |HeldBy(holder, u)|;
    }
  }

  lemma DisinheritKeeps(ts: Tasks, holder: map<Mutex, Task>, t: Task, m: Mutex)
    requires HeldCounts(ts.held, holder) && OwnPriority(ts) && m in holder && holder[m] == t
    ensures At(ts.held, t) > 0
    ensures HeldCounts(Disinherit(ts, t).held, holder - {m}) && OwnPriority(Disinherit(ts, t))
  {
    HeldByGive(holder, t, m);
  }

  /** No step loses count of the mutexes held, or leaves a task without one at
      an inherited priority. */
  lemma StepKeepsSettled(s: System, step: Step, top: nat)
    requires Settled(s) && Enabled(s, step)
    ensures Settled(Apply(s, step, top))
  {
    match step
    case Take(t, m) => CountTakenKeeps(s.tasks, s.holder, t, m);
    case Block(t, m) =>
      HolderHolds(s, m);
      BlockTasks(s, t, m, top);
    case Give(t, m) =>
      DisinheritKeeps(s.tasks, s.holder, t, m);
      GiveTasks(s, t, m, top);
    case Expire(m, k) =>
    case GiveUp(t) => GiveUpTasks(s, t, top);
  }

  lemma BlockTasks(s: System, t: Task, m: Mutex, top: nat)
    requires Enabled(s, Block(t, m))
    ensures Apply(s, Block(t, m), top).tasks == Inherit(s.tasks, s.holder[m], t)
    ensures Apply(s, Block(t, m), top).holder == s.holder
  {}

  lemma GiveTasks(s: System, t: Task, m: Mutex, top: nat)
    requires Enabled(s, Give(t, m))
    ensures Apply(s, Give(t, m), top).tasks == Disinherit(s.tasks, t)
    ensures Apply(s, Give(t, m), top).holder == s.holder - {m}
  {}

  lemma GiveUpTasks(s: System, t: Task, top: nat)
    requires Enabled(s, GiveUp(t)) && Settled(s)
    ensures Settled(Apply(s, GiveUp(t), top))
  {}

  /** A run, step by step. */
  predicate LegalRun(s: System, run: seq<Step>, top: nat)
    decreases |run|
  {
    run == [] || (Enabled(s, run[0]) && LegalRun(Apply(s, run[0], top), run[1..], top))
  }

  function Final(s: System, run: seq<Step>, top: nat): System
    requires LegalRun(s, run, top)
    decreases |run|
  {
    if run == [] then s else Final(Apply(s, run[0], top), run[1..], top)
  }

  /** The mutex counts and the return to the base priority hold after every run. */
  lemma {:induction false} RunKeepsSettled(s: System, run: seq<Step>, top: nat)
    requires Settled(s) && LegalRun(s, run, top)
    ensures Settled(Final(s, run, top))
    decreases |run|
  {
    if run != [] {
      StepKeepsSettled(s, run[0], top);
      RunKeepsSettled(Apply(s, run[0], top), run[1..], top);
    }
  }

  // ---------- The boost, where tasks block holding no mutex

  /** Whoever blocks holds no mutex at that time. */
  predicate BlocksEmptyHanded(s: System, step: Step) {
    step.Block? ==> At(s.tasks.held, step.t) == 0
  }

  ghost predicate PrioritiesBelow(ts: Tasks, top: nat) {
    forall t :: At(ts.priority, t) < top && At(ts.base, t) < top
  }

  /** One event list entry: its value shows the priority of the waiter, which
      holds nothing and is blocked on this mutex. */
  ghost predicate WaiterOk(e: Entry<Task>, ts: Tasks, attempts: map<Task, Attempt>, m: Mutex, top: nat) {
    && e.value + At(ts.priority, e.owner) == top
    && At(ts.held, e.owner) == 0
    && e.owner in attempts && attempts[e.owner].blocked && attempts[e.owner].mutex == m
  }

  ghost predicate ListOk(q: seq<Entry<Task>>, ts: Tasks, attempts: map<Task, Attempt>, m: Mutex, top: nat) {
    && Sorted(q)
    && (forall i :: 0 <= i < |q| ==> WaiterOk(q[i], ts, attempts, m, top))
    && (forall i, j :: 0 <= i < j < |q| ==> q[i].owner != q[j].owner)
  }

  ghost predicate ListsOk(s: System, top: nat) {
    forall m :: ListOk(s.WaitingFor(m), s.tasks, s.attempts, m, top)
  }

  ghost predicate Waits(q: seq<Entry<Task>>, t: Task) {
    exists i :: 0 <= i < |q| && q[i].owner == t
  }

  /** A holder runs at no lower priority than any task that blocked during its
      tenure and still waits. */
  ghost predicate Boosted(s: System) {
    forall m, w :: w in s.Tenure(m) ==>
      m in s.holder && At(s.tasks.priority, w) <= At(s.tasks.priority, s.holder[m]) && Waits(s.WaitingFor(m), w)
  }

  ghost predicate Invariant(s: System, top: nat) {
    Settled(s) && PrioritiesBelow(s.tasks, top) && ListsOk(s, top) && Boosted(s)
  }

  /** A task that holds a mutex is on no event list, so a new priority moves no value. */
  lemma HolderNotWaiting(s: System, ts: Tasks, h: Task, top: nat)
    requires ListsOk(s, top) && At(s.tasks.held, h) > 0
    ensures WithTasks(s, ts, h, top) == s.(tasks := ts)
  {
    forall m | m in s.waiting
      ensures forall v: nat :: Revalued(s.waiting[m], h, v) == s.waiting[m]
    {
      var q := s.WaitingFor(m);
      assert ListOk(q, s.tasks, s.attempts, m, top);
      forall i | 0 <= i < |q| ensures q[i].owner != h { assert WaiterOk(q[i], s.tasks, s.attempts, m, top); }
    }
    if At(ts.priority, h) <= top {
      var w := map m | m in s.waiting :: Revalued(s.waiting[m], h, top - At(ts.priority, h));
      assert w == s.waiting;
    }
  }

  /** A waiter whose own entries are the same stays in order. */
  lemma KeepsList(q: seq<Entry<Task>>, ts: Tasks, ts': Tasks, attempts: map<Task, Attempt>,
                  attempts': map<Task, Attempt>, m: Mutex, top: nat, changed: Task)
    requires ListOk(q, ts, attempts, m, top) && !Waits(q, changed)
    requires forall t | t != changed :: At(ts'.priority, t) == At(ts.priority, t) && At(ts'.held, t) == At(ts.held, t)
    requires forall t | t != changed && t in attempts :: t in attempts' && attempts'[t] == attempts[t]
    ensures ListOk(q, ts', attempts', m, top)
  {
    forall i | 0 <= i < |q|
      ensures WaiterOk(q[i], ts', attempts', m, top)
    {
      assert WaiterOk(q[i], ts, attempts, m, top);
    }
  }

  /** The same for all lists, for a task that is on none. */
  lemma KeepsLists(s: System, s': System, top: nat, changed: Task)
    requires ListsOk(s, top) && s'.waiting == s.waiting
    requires !s.Blocked(changed) || At(s.tasks.held, changed) > 0
    requires forall t | t != changed ::
      At(s'.tasks.priority, t) == At(s.tasks.priority, t) && At(s'.tasks.held, t) == At(s.tasks.held, t)
    requires forall t | t != changed && t in s.attempts :: t in s'.attempts && s'.attempts[t] == s.attempts[t]
    ensures ListsOk(s', top)
  {
    forall m
      ensures ListOk(s'.WaitingFor(m), s'.tasks, s'.attempts, m, top)
    {
      var q := s.WaitingFor(m);
      assert ListOk(q, s.tasks, s.attempts, m, top);
      forall i | 0 <= i < |q| ensures q[i].owner != changed { assert WaiterOk(q[i], s.tasks, s.attempts, m, top); }
      KeepsList(q, s.tasks, s'.tasks, s.attempts, s'.attempts, m, top, changed);
    }
  }

  lemma InsertWaits(q: seq<Entry<Task>>, e: Entry<Task>)
    ensures forall u :: Waits(InsertSorted(q, e), u) <==> u == e.owner || Waits(q, u)
  {
    var k := InsertSortedPlace(q, e);
    var r := InsertSorted(q, e);
    forall i | 0 <= i < |r|
      ensures r[i] == if i < k then q[i] else if i == k then e else q[i - 1]
    {}
    forall u | u == e.owner || Waits(q, u)
      ensures Waits(r, u)
    {
      if u == e.owner {
        assert r[k].owner == u;
      } else {
        var i :| 0 <= i < |q| && q[i].owner == u;
        assert r[if i < k then i else i + 1].owner == u;
      }
    }
  }

  /** Insertion of a task that is not waiting yet. */
  lemma InsertKeepsList(q: seq<Entry<Task>>, t: Task, ts: Tasks, attempts: map<Task, Attempt>,
                        attempts': map<Task, Attempt>, m: Mutex, top: nat, e: Entry<Task>)
    requires ListOk(q, ts, attempts, m, top) && !Waits(q, t)
    requires e.owner == t && WaiterOk(e, ts, attempts', m, top)
    requires forall u | u != t && u in attempts :: u in attempts' && attempts'[u] == attempts[u]
    ensures ListOk(InsertSorted(q, e), ts, attempts', m, top)
  {
    var k := InsertSortedStable(q, e);
    var r := InsertSorted(q, e);
    KeepsList(q, ts, ts, attempts, attempts', m, top, t);
    forall i | 0 <= i < |r|
      ensures r[i] == if i < k then q[i] else if i == k then e else q[i - 1]
    {}
    forall i, j | 0 <= i < j < |r|
      ensures r[i].owner != r[j].owner
    {
      assert i != k ==> q[if i < k then i else i - 1].owner != t;
    }
  }

  lemma RemovedWaits(q: seq<Entry<Task>>, k: nat)
    requires k < |q|
    ensures forall u :: Waits(q, u) && u != q[k].owner ==> Waits(q[..k] + q[k + 1..], u)
    ensures forall u :: Waits(q[..k] + q[k + 1..], u) ==> Waits(q, u)
  {
    var r := q[..k] + q[k + 1..];
    forall i | 0 <= i < |r|
      ensures r[i] == q[if i < k then i else i + 1]
    {
    }
    forall u | Waits(q, u) && u != q[k].owner
      ensures Waits(r, u)
    {
      var i :| 0 <= i < |q| && q[i].owner == u;
      assert r[if i < k then i else i - 1].owner == u;
    }
  }

  /** Removing entry k leaves exactly the other waiters, in order. */
  lemma RemoveKeepsList(q: seq<Entry<Task>>, k: nat, ts: Tasks, attempts: map<Task, Attempt>,
                        attempts': map<Task, Attempt>, m: Mutex, top: nat)
    requires ListOk(q, ts, attempts, m, top) && k < |q|
    requires forall u | u != q[k].owner && u in attempts :: u in attempts' && attempts'[u] == attempts[u]
    ensures ListOk(q[..k] + q[k + 1..], ts, attempts', m, top)
    ensures forall u :: Waits(q[..k] + q[k + 1..], u) <==> Waits(q, u) && u != q[k].owner
  {
    var r := q[..k] + q[k + 1..];
    forall i | 0 <= i < |r|
      ensures r[i] == q[if i < k then i else i + 1] && WaiterOk(r[i], ts, attempts', m, top)
      ensures r[i].owner != q[k].owner
    {
      assert WaiterOk(q[if i < k then i else i + 1], ts, attempts, m, top);
    }
    RemovedWaits(q, k);
    forall u
      ensures Waits(r, u) <==> Waits(q, u) && u != q[k].owner
    {
    }
  }

  /** Nobody waits in two places. */
  lemma WaiterIsBlocked(s: System, m: Mutex, t: Task, top: nat)
    requires ListsOk(s, top) && Waits(s.WaitingFor(m), t)
    ensures s.Blocked(t) && s.attempts[t].mutex == m && At(s.tasks.held, t) == 0
  {
    var q := s.WaitingFor(m);
    assert ListOk(q, s.tasks, s.attempts, m, top);
    var i :| 0 <= i < |q| && q[i].owner == t;
    assert WaiterOk(q[i], s.tasks, s.attempts, m, top);
  }

  lemma TakeKeeps(s: System, t: Task, m: Mutex, top: nat)
    requires Invariant(s, top) && Enabled(s, Take(t, m))
    ensures ListsOk(Apply(s, Take(t, m), top), top) && Boosted(Apply(s, Take(t, m), top))
  {
    var s' := Apply(s, Take(t, m), top);
    KeepsLists(s, s', top, t);
    forall m', w | w in s'.Tenure(m')
      ensures m' in s'.holder && At(s'.tasks.priority, w) <= At(s'.tasks.priority, s'.holder[m'])
      ensures Waits(s'.WaitingFor(m'), w)
    {
      assert w in s.Tenure(m');
    }
  }

  lemma RemovedKeeps(s: System, m: Mutex, k: nat, top: nat)
    requires ListsOk(s, top) && Boosted(s) && k < |s.WaitingFor(m)|
    ensures ListsOk(Removed(s, m, k), top) && Boosted(Removed(s, m, k))
  {
    var s' := Removed(s, m, k);
    var q := s.WaitingFor(m);
    var w := q[k].owner;
    assert Waits(q, w);
    WaiterIsBlocked(s, m, w, top);
    assert ListOk(q, s.tasks, s.attempts, m, top);
    RemoveKeepsList(q, k, s.tasks, s.attempts, s'.attempts, m, top);
    forall m'
      ensures ListOk(s'.WaitingFor(m'), s'.tasks, s'.attempts, m', top)
    {
      if m' != m {
        var q' := s.WaitingFor(m');
        assert ListOk(q', s.tasks, s.attempts, m', top);
        if Waits(q', w) { WaiterIsBlocked(s, m', w, top); }
        KeepsList(q', s.tasks, s'.tasks, s.attempts, s'.attempts, m', top, w);
      }
    }
    forall m', u | u in s'.Tenure(m')
      ensures m' in s'.holder && At(s'.tasks.priority, u) <= At(s'.tasks.priority, s'.holder[m'])
      ensures Waits(s'.WaitingFor(m'), u)
    {
      assert u in s.Tenure(m');
    }
  }

  /** The second half of blocking: the task goes on the event list of a mutex
      whose holder runs at least at its priority. */
  function Queued(s: System, t: Task, m: Mutex, e: Entry<Task>, attempt: Attempt): System {
    s.(waiting := s.waiting[m := InsertSorted(s.WaitingFor(m), e)],
       tenure := s.tenure[m := s.Tenure(m) + {t}],
       attempts := s.attempts[t := attempt])
  }

  lemma QueuedKeepsLists(s: System, t: Task, m: Mutex, e: Entry<Task>, attempt: Attempt, top: nat)
    requires ListsOk(s, top) && !s.Blocked(t) && At(s.tasks.held, t) == 0
    requires e.owner == t && e.value + At(s.tasks.priority, t) == top
    requires attempt.mutex == m && attempt.blocked
    ensures ListsOk(Queued(s, t, m, e, attempt), top)
    ensures forall m', u :: Waits(Queued(s, t, m, e, attempt).WaitingFor(m'), u) <==>
                            (m' == m && u == t) || Waits(s.WaitingFor(m'), u)
  {
    var s' := Queued(s, t, m, e, attempt);
    forall m'
      ensures ListOk(s'.WaitingFor(m'), s'.tasks, s'.attempts, m', top)
      ensures forall u :: Waits(s'.WaitingFor(m'), u) <==> (m' == m && u == t) || Waits(s.WaitingFor(m'), u)
    {
      var q := s.WaitingFor(m');
      assert ListOk(q, s.tasks, s.attempts, m', top);
      if Waits(q, t) { WaiterIsBlocked(s, m', t, top); }
      if m' == m {
        InsertKeepsList(q, t, s.tasks, s.attempts, s'.attempts, m, top, e);
        InsertWaits(q, e);
      } else {
        KeepsList(q, s.tasks, s.tasks, s.attempts, s'.attempts, m', top, t);
      }
    }
  }

  lemma QueuedKeepsBoost(s: System, t: Task, m: Mutex, e: Entry<Task>, attempt: Attempt, top: nat)
    requires ListsOk(s, top) && Boosted(s) && !s.Blocked(t) && At(s.tasks.held, t) == 0
    requires e.owner == t && e.value + At(s.tasks.priority, t) == top
    requires attempt.mutex == m && attempt.blocked
    requires m in s.holder && At(s.tasks.priority, t) <= At(s.tasks.priority, s.holder[m])
    ensures Boosted(Queued(s, t, m, e, attempt))
  {
    QueuedKeepsLists(s, t, m, e, attempt, top);
    var s' := Queued(s, t, m, e, attempt);
    forall m', u | u in s'.Tenure(m')
      ensures m' in s'.holder && At(s'.tasks.priority, u) <= At(s'.tasks.priority, s'.holder[m'])
      ensures Waits(s'.WaitingFor(m'), u)
    {
      assert u in s.Tenure(m') || (m' == m && u == t);
    }
  }

  /** Raising the priority of a holder keeps everybody boosted. */
  lemma RaiseKeeps(s: System, ts: Tasks, h: Task, top: nat)
    requires ListsOk(s, top) && Boosted(s) && At(s.tasks.held, h) > 0
    requires ts == s.tasks.(priority := ts.priority) && At(s.tasks.priority, h) <= At(ts.priority, h)
    requires forall t | t != h :: At(ts.priority, t) == At(s.tasks.priority, t)
    ensures ListsOk(s.(tasks := ts), top) && Boosted(s.(tasks := ts))
  {
    var s' := s.(tasks := ts);
    KeepsLists(s, s', top, h);
    forall m, u | u in s'.Tenure(m)
      ensures m in s'.holder && At(s'.tasks.priority, u) <= At(s'.tasks.priority, s'.holder[m])
      ensures Waits(s'.WaitingFor(m), u)
    {
      assert u in s.Tenure(m);
      WaiterIsBlocked(s, m, u, top);
    }
  }

  lemma BlockIsQueued(s: System, t: Task, m: Mutex, ts: Tasks, e: Entry<Task>, top: nat)
    requires Enabled(s, Block(t, m)) && ts == Inherit(s.tasks, s.holder[m], t)
    requires WithTasks(s, ts, s.holder[m], top) == s.(tasks := ts)
    requires e.owner == t && e.value + At(ts.priority, t) == top
    ensures Apply(s, Block(t, m), top) ==
            Queued(s.(tasks := ts), t, m, e, Attempt(m, InheritOccurred(s.tasks, s.holder[m], t), true))
  {}

  lemma BlockKeeps(s: System, t: Task, m: Mutex, top: nat)
    requires Invariant(s, top) && Enabled(s, Block(t, m)) && At(s.tasks.held, t) == 0
    ensures ListsOk(Apply(s, Block(t, m), top), top) && Boosted(Apply(s, Block(t, m), top))
  {
    var h := s.holder[m];
    var ts := Inherit(s.tasks, h, t);
    HolderHolds(s, m);
    HolderNotWaiting(s, ts, h, top);
    RaiseKeeps(s, ts, h, top);
    var e := Entry(top - At(s.tasks.priority, t), t);
    var attempt := Attempt(m, InheritOccurred(s.tasks, h, t), true);
    QueuedKeepsLists(s.(tasks := ts), t, m, e, attempt, top);
    QueuedKeepsBoost(s.(tasks := ts), t, m, e, attempt, top);
    BlockIsQueued(s, t, m, ts, e, top);
  }

  lemma GiveKeeps(s: System, t: Task, m: Mutex, top: nat)
    requires Invariant(s, top) && Enabled(s, Give(t, m))
    ensures ListsOk(Apply(s, Give(t, m), top), top) && Boosted(Apply(s, Give(t, m), top))
  {
    var ts := Disinherit(s.tasks, t);
    HolderNotWaiting(s, ts, t, top);
    HeldByGive(s.holder, t, m);
    var s'' := s.(tasks := ts, holder := s.holder - {m}, tenure := s.tenure[m := {}]);
    KeepsLists(s, s'', top, t);
    forall m', u | u in s''.Tenure(m')
      ensures m' in s''.holder && At(s''.tasks.priority, u) <= At(s''.tasks.priority, s''.holder[m'])
      ensures Waits(s''.WaitingFor(m'), u)
    {
      assert u in s.Tenure(m');
      WaiterIsBlocked(s, m', u, top);
      if s.holder[m'] == t {
        assert m' in HeldBy(s.holder, t) - {m};
      }
    }
    if s''.WaitingFor(m) != [] {
      RemovedKeeps(s'', m, 0, top);
    }
  }

  /** A holder of this mutex alone that drops to its own priority or that of the
      first waiter, whichever is higher, is still boosted. */
  lemma DropKeeps(s: System, m: Mutex, top: nat)
    requires Invariant(s, top) && m in s.holder
    ensures var ts := DisinheritAfterTimeout(s.tasks, s.holder[m], HighestWaiting(s.WaitingFor(m), top));
            var s' := s.(tasks := ts);
            WithTasks(s, ts, s.holder[m], top) == s' && ListsOk(s', top) && Boosted(s') && PrioritiesBelow(ts, top)
  {
    var h := s.holder[m];
    var q := s.WaitingFor(m);
    HolderHolds(s, m);
    var ts := DisinheritAfterTimeout(s.tasks, h, HighestWaiting(q, top));
    HolderNotWaiting(s, ts, h, top);
    var s' := s.(tasks := ts);
    KeepsLists(s, s', top, h);
    assert ListOk(q, s.tasks, s.attempts, m, top);
    if q != [] {
      assert WaiterOk(q[0], s.tasks, s.attempts, m, top);
      assert HighestWaiting(q, top) == At(s.tasks.priority, q[0].owner);
    }
    forall m', u | u in s'.Tenure(m')
      ensures m' in s'.holder && At(s'.tasks.priority, u) <= At(s'.tasks.priority, s'.holder[m'])
      ensures Waits(s'.WaitingFor(m'), u)
    {
      assert u in s.Tenure(m');
      WaiterIsBlocked(s, m', u, top);
      if s.holder[m'] == h && ts != s.tasks {
        OnlyOne(s.holder, h, m, m');
        var i :| 0 <= i < |q| && q[i].owner == u;
        assert WaiterOk(q[i], s.tasks, s.attempts, m, top);
        assert q[0].value <= q[i].value;
      }
    }
  }

  lemma GiveUpKeeps(s: System, t: Task, top: nat)
    requires Invariant(s, top) && Enabled(s, GiveUp(t))
    ensures ListsOk(Apply(s, GiveUp(t), top), top) && Boosted(Apply(s, GiveUp(t), top))
    ensures PrioritiesBelow(Apply(s, GiveUp(t), top).tasks, top)
  {
    var m := s.attempts[t].mutex;
    var s1 := s.(attempts := s.attempts - {t});
    KeepsLists(s, s1, top, t);
    assert Boosted(s1) by {
      forall m', u | u in s1.Tenure(m')
        ensures m' in s1.holder && At(s1.tasks.priority, u) <= At(s1.tasks.priority, s1.holder[m'])
        ensures Waits(s1.WaitingFor(m'), u)
      { assert u in s.Tenure(m'); }
    }
    if s.attempts[t].inherited && m in s.holder {
      DropKeeps(s1, m, top);
    }
  }

  lemma DisinheritBelow(ts: Tasks, t: Task, top: nat)
    requires PrioritiesBelow(ts, top) && At(ts.held, t) > 0
    ensures PrioritiesBelow(Disinherit(ts, t), top)
  {
    assert At(ts.base, t) < top;
  }

  lemma InheritBelow(ts: Tasks, h: Task, t: Task, top: nat)
    requires PrioritiesBelow(ts, top)
    ensures PrioritiesBelow(Inherit(ts, h, t), top)
  {
    forall u
      ensures At(Inherit(ts, h, t).priority, u) < top && At(Inherit(ts, h, t).base, u) < top
    {
      assert At(ts.priority, u) < top && At(ts.base, u) < top && At(ts.priority, t) < top;
    }
  }

  lemma StepKeepsBelow(s: System, step: Step, top: nat)
    requires Invariant(s, top) && Enabled(s, step)
    ensures PrioritiesBelow(Apply(s, step, top).tasks, top)
  {
    match step
    case Take(t, m) => assert PrioritiesBelow(CountTaken(s.tasks, t), top);
    case Block(t, m) =>
      InheritBelow(s.tasks, s.holder[m], t, top);
      BlockTasks(s, t, m, top);
    case Give(t, m) =>
      DisinheritBelow(s.tasks, t, top);
      GiveTasks(s, t, m, top);
    case Expire(m, k) =>
    case GiveUp(t) => GiveUpKeeps(s, t, top);
  }

  lemma OnlyOne(holder: map<Mutex, Task>, h: Task, m: Mutex, m': Mutex)
    requires m in holder && m' in holder && holder[m] == h && holder[m'] == h
    requires |HeldBy(holder, h)| == 1
    ensures m == m'
  {
    var held := HeldBy(holder, h);
    assert m in held;
    assert |held - {m}| == 0;
    assert m' in held && m' !in held - {m};
  }

  /** One step in which nobody blocks while holding a mutex. */
  lemma StepKeepsInvariant(s: System, step: Step, top: nat)
    requires Invariant(s, top) && Enabled(s, step) && BlocksEmptyHanded(s, step)
    ensures Invariant(Apply(s, step, top), top)
  {
    StepKeepsSettled(s, step, top);
    StepKeepsBelow(s, step, top);
    StepKeepsLists(s, step, top);
  }

  lemma StepKeepsLists(s: System, step: Step, top: nat)
    requires Invariant(s, top) && Enabled(s, step) && BlocksEmptyHanded(s, step)
    ensures ListsOk(Apply(s, step, top), top) && Boosted(Apply(s, step, top))
  {
    match step
    case Take(t, m) => TakeKeeps(s, t, m, top);
    case Block(t, m) => BlockKeeps(s, t, m, top);
    case Give(t, m) => GiveKeeps(s, t, m, top);
    case Expire(m, k) => RemovedKeeps(s, m, k, top);
    case GiveUp(t) => GiveUpKeeps(s, t, top);
  }

  /** Nobody in the run blocks on a mutex while holding one. */
  predicate NoNestedBlocking(s: System, run: seq<Step>, top: nat)
    requires LegalRun(s, run, top)
    decreases |run|
  {
    run == [] || (BlocksEmptyHanded(s, run[0]) && NoNestedBlocking(Apply(s, run[0], top), run[1..], top))
  }

  lemma {:induction false} RunKeepsInvariant(s: System, run: seq<Step>, top: nat)
    requires Invariant(s, top) && LegalRun(s, run, top) && NoNestedBlocking(s, run, top)
    ensures Invariant(Final(s, run, top), top)
    decreases |run|
  {
    if run != [] {
      StepKeepsInvariant(s, run[0], top);
      RunKeepsInvariant(Apply(s, run[0], top), run[1..], top);
    }
  }

  /** No mutex taken yet, every task at its own priority. */
  ghost predicate Start(s: System, top: nat) {
    && s.holder == map[] && s.waiting == map[] && s.tenure == map[] && s.attempts == map[]
    && s.tasks.held == map[] && s.tasks.priority == s.tasks.base && PrioritiesBelow(s.tasks, top)
  }

  lemma StartInvariant(s: System, top: nat)
    requires Start(s, top)
    ensures Invariant(s, top)
  {
    forall t ensures HeldBy(s.holder, t) == {} {}
  }

  /** After every run of take, block, give and time-out: the count of mutexes
      held is exact, a task that holds none runs at its own priority, and, if
      no task blocked while holding a mutex, a holder runs at no lower priority
      than each task that blocked on its mutex during its tenure and still waits. */
  lemma HolderIsBoosted(s: System, run: seq<Step>, top: nat)
    requires Start(s, top) && LegalRun(s, run, top)
    ensures var f := Final(s, run, top);
            && (forall t :: At(f.tasks.held, t) == |HeldBy(f.holder, t)|)
            && (forall t :: HeldBy(f.holder, t) == {} ==> At(f.tasks.priority, t) == At(f.tasks.base, t))
            && (NoNestedBlocking(s, run, top) ==>
                  forall m, w :: w in f.Tenure(m) ==>
                    m in f.holder && At(f.tasks.priority, w) <= At(f.tasks.priority, f.holder[m]))
  {
    var f := Final(s, run, top);
    StartInvariant(s, top);
    RunKeepsSettled(s, run, top);
    forall t | HeldBy(f.holder, t) == {}
      ensures At(f.tasks.priority, t) == At(f.tasks.base, t)
    {
      assert At(f.tasks.held, t) == |HeldBy(f.holder, t)|;
    }
    if NoNestedBlocking(s, run, top) {
      RunKeepsInvariant(s, run, top);
    }
  }
}
