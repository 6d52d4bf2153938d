/** Time and blocking in tasks.c: a tick counter that wraps, two delayed lists
    that change places when it does, and ticks held back while the scheduler
    is suspended.

    The specification has an unbounded clock and one list of sleepers in order
    of their true wake times.
 */
module SleepClock {
  import opened ListModel

  type Task = nat

  function Owners(s: seq<Entry<Task>>): (r: seq<Task>)
    ensures |r| == |s| && forall i :: 0 <= i < |s| ==> r[i] == s[i].owner
  {
    seq(|s|, i requires 0 <= i < |s| => s[i].owner)
  }

  /** The true time, the tasks asleep with their wake times, and the tasks
      readied by a tick with the times they were readied at. */
  datatype Clock = Clock(now: nat, sleepers: seq<Entry<Task>>, readied: seq<Entry<Task>>)

  ghost predicate Orderly(c: Clock) {
    Sorted(c.sleepers) && forall i :: 0 <= i < |c.sleepers| ==> c.now <= c.sleepers[i].value
  }

  /** Nobody sleeps for no time at all. */
  ghost predicate NoneNow(c: Clock) {
    forall i :: 0 <= i < |c.sleepers| ==> c.now < c.sleepers[i].value
  }

  /** How many leading entries are due at a time. */
  function DueCount(s: seq<Entry<Task>>, time: int): (n: nat)
    ensures n <= |s|
  {
    if s == [] || s[0].value > time then 0 else 1 + DueCount(s[1..], time)
  }

  function Stamped(s: seq<Entry<Task>>, time: nat): (r: seq<Entry<Task>>)
    ensures |r| == |s| && forall i :: 0 <= i < |s| ==> r[i] == Entry(time, s[i].owner)
  {
    seq(|s|, i requires 0 <= i < |s| => Entry(time, s[i].owner))
  }

  function Tick(c: Clock): Clock {
    var n := DueCount(c.sleepers, c.now + 1);
    Clock(c.now + 1, c.sleepers[n..], c.readied + Stamped(c.sleepers[..n], c.now + 1))
  }

  function Ticks(c: Clock, n: nat): Clock
    decreases n
  {
    if n == 0 then c else Ticks(Tick(c), n - 1)
  }

  /** The clock from tick to tick. */
  ghost predicate IsTrace(trace: seq<Clock>) {
    trace != [] && forall i :: 0 < i < |trace| ==> trace[i] == Tick(trace[i - 1])
  }

  lemma {:induction false} TicksTrace(c: Clock, n: nat) returns (trace: seq<Clock>)
    ensures IsTrace(trace) && |trace| == n + 1 && trace[0] == c && trace[n] == Ticks(c, n)
    decreases n
  {
    if n == 0 {
      trace := [c];
    } else {
      var rest := TicksTrace(Tick(c), n - 1);
      trace := [c] + rest;
    }
  }

  /** What ticks ready is stamped with their times, in order. */
  lemma {:induction false} TicksReadyInOrder(c: Clock, n: nat) returns (added: seq<Entry<Task>>)
    ensures Ticks(c, n).readied == c.readied + added && Sorted(added)
    ensures forall i :: 0 <= i < |added| ==> c.now < added[i].value <= c.now + n
    decreases n
  {
    if n == 0 {
      added := [];
    } else {
      var rest := TicksReadyInOrder(Tick(c), n - 1);
      var first := Stamped(c.sleepers[..DueCount(c.sleepers, c.now + 1)], c.now + 1);
      added := first + rest;
      assert c.readied + first + rest == c.readied + (first + rest);
    }
  }

  function Sleep(c: Clock, t: Task, ticks: nat): Clock {
    c.(sleepers := InsertSorted(c.sleepers, Entry(c.now + ticks, t)))
  }

  /** The list without the items of one owner. */
  function Without(s: seq<Entry<Task>>, t: Task): (r: seq<Entry<Task>>)
  {
    if s == [] then []
    else (if s[0].owner == t then [] else [s[0]]) + Without(s[1..], t)
  }

  function Wake(c: Clock, t: Task): Clock {
    c.(sleepers := Without(c.sleepers, t))
  }

  /** The due entries are all the entries with a due time, and no others. */
  lemma {:induction false} DueExactly(s: seq<Entry<Task>>, time: int)
    requires Sorted(s)
    ensures forall i :: 0 <= i < |s| ==> (i < DueCount(s, time) <==> s[i].value <= time)
  {
    if s != [] && s[0].value <= time {
      DueExactly(s[1..], time);
      forall i | 0 <= i < |s|
        ensures i < DueCount(s, time) <==> s[i].value <= time
      {
        if i > 0 {
          assert s[i] == s[1..][i - 1];
        }
      }
    }
  }

  lemma {:induction false} DueCountUnique(s: seq<Entry<Task>>, time: int, n: nat)
    requires n <= |s| && (forall i :: 0 <= i < n ==> s[i].value <= time) && (n < |s| ==> time < s[n].value)
    ensures n == DueCount(s, time)
  {
    if n > 0 {
      DueCountUnique(s[1..], time, n - 1);
    }
  }

  /** The times recorded for one task, in list order. */
  function TimesOf(s: seq<Entry<Task>>, t: Task): seq<nat> {
    if s == [] then []
    else (if s[0].owner == t then [s[0].value] else []) + TimesOf(s[1..], t)
  }

  lemma {:induction false} TimesOfConcat(a: seq<Entry<Task>>, b: seq<Entry<Task>>, t: Task)
    ensures TimesOf(a + b, t) == TimesOf(a, t) + TimesOf(b, t)
  {
    if a == [] {
      assert a + b == b;
    } else {
      TimesOfConcat(a[1..], b, t);
      assert (a + b)[1..] == a[1..] + b && (a + b)[0] == a[0];
      var first := if a[0].owner == t then [a[0].value] else [];
      assert TimesOf(a + b, t) == first + (TimesOf(a[1..], t) + TimesOf(b, t));
      assert TimesOf(a, t) == first + TimesOf(a[1..], t);
    }
  }

  /** Bounds on a list are bounds on the times of each task. */
  lemma {:induction false} TimesOfBounds(s: seq<Entry<Task>>, t: Task, low: int, high: int)
    requires forall i :: 0 <= i < |s| ==> low <= s[i].value <= high
    ensures forall i :: 0 <= i < |TimesOf(s, t)| ==> low <= TimesOf(s, t)[i] <= high
  {
    if s != [] {
      TimesOfBounds(s[1..], t, low, high);
    }
  }

  lemma {:induction false} TimesOfInsert(s: seq<Entry<Task>>, e: Entry<Task>, t: Task)
    ensures e.owner != t ==> TimesOf(InsertSorted(s, e), t) == TimesOf(s, t)
    ensures e.owner == t && TimesOf(s, t) == [] ==> TimesOf(InsertSorted(s, e), t) == [e.value]
  {
    if s == [] || s[0].value > e.value {
      assert ([e] + s)[1..] == s;
    } else {
      TimesOfInsert(s[1..], e, t);
      assert ([s[0]] + InsertSorted(s[1..], e))[1..] == InsertSorted(s[1..], e);
    }
  }

  lemma {:induction false} TimesOfWithout(s: seq<Entry<Task>>, u: Task, t: Task)
    ensures TimesOf(Without(s, u), t) == if u == t then [] else TimesOf(s, t)
  {
    if s != [] {
      TimesOfWithout(s[1..], u, t);
      var kept := if s[0].owner == u then [] else [s[0]];
      TimesOfConcat(kept, Without(s[1..], u), t);
    }
  }

  lemma {:induction false} WithoutKeepsOrder(s: seq<Entry<Task>>, t: Task, low: int)
    requires Sorted(s) && forall i :: 0 <= i < |s| ==> low <= s[i].value
    ensures Sorted(Without(s, t)) && forall i :: 0 <= i < |Without(s, t)| ==> low <= Without(s, t)[i].value
  {
    if s != [] {
      WithoutKeepsOrder(s[1..], t, s[0].value);
    }
  }

  lemma WakeKeepsOrder(c: Clock, t: Task)
    requires Orderly(c)
    ensures Orderly(Wake(c, t)) && (NoneNow(c) ==> NoneNow(Wake(c, t)))
  {
    WithoutKeepsOrder(c.sleepers, t, c.now);
    if NoneNow(c) {
      WithoutKeepsOrder(c.sleepers, t, c.now + 1);
    }
  }

  lemma TickKeepsOrder(c: Clock)
    requires Orderly(c)
    ensures Orderly(Tick(c)) && NoneNow(Tick(c))
  {
    DueExactly(c.sleepers, c.now + 1);
  }

  /** Ticks replayed are ticks like any others. */
  lemma {:induction false} TicksAreRun(c: Clock, n: nat)
    ensures Ticks(c, n) == Run(c, seq(n, _ => TickOp))
    decreases n
  {
    if n > 0 {
      TicksAreRun(Tick(c), n - 1);
      assert seq(n, _ => TickOp)[1..] == seq(n - 1, _ => TickOp);
    }
  }

  datatype Op = TickOp | SleepOp(t: Task, ticks: nat) | WakeOp(t: Task)

  function Apply(c: Clock, op: Op): Clock {
    match op
    case TickOp => Tick(c)
    case SleepOp(t, ticks) => Sleep(c, t, ticks)
    case WakeOp(t) => Wake(c, t)
  }

  function Run(c: Clock, ops: seq<Op>): Clock
    decreases |ops|
  {
    if ops == [] then c else Run(Apply(c, ops[0]), ops[1..])
  }

  /** Ticks, and sleeps and wake-ups of other tasks. */
  predicate LeavesAlone(op: Op, t: Task) {
    match op
    case TickOp => true
    case SleepOp(u, ticks) => u != t
    case WakeOp(u) => u != t
  }

  /** Since there were base readied entries, task t has been bound to wake at
      time w: it sleeps until then, and is readied once, then. */
  ghost predicate WakesAt(c: Clock, base: nat, t: Task, w: nat) {
    && base <= |c.readied|
    && TimesOf(c.sleepers, t) == (if c.now < w then [w] else [])
    && TimesOf(c.readied[base..], t) == (if c.now < w then [] else [w])
  }

  lemma InsertAtLeast(s: seq<Entry<Task>>, e: Entry<Task>, low: int)
    requires low <= e.value && forall i :: 0 <= i < |s| ==> low <= s[i].value
    ensures forall i :: 0 <= i < |InsertSorted(s, e)| ==> low <= InsertSorted(s, e)[i].value
  {
    var k := InsertSortedPlace(s, e);
  }

  lemma SleepKeepsOrder(c: Clock, t: Task, ticks: nat)
    requires Orderly(c)
    ensures Orderly(Sleep(c, t, ticks)) && (NoneNow(c) && ticks > 0 ==> NoneNow(Sleep(c, t, ticks)))
  {
    var e := Entry(c.now + ticks, t);
    var k := InsertSortedStable(c.sleepers, e);
    InsertAtLeast(c.sleepers, e, c.now);
    if NoneNow(c) && ticks > 0 {
      InsertAtLeast(c.sleepers, e, c.now + 1);
    }
  }

  lemma DueSplit(s: seq<Entry<Task>>, time: nat) returns (due: seq<Entry<Task>>, rest: seq<Entry<Task>>)
    requires Sorted(s)
    ensures due == s[..DueCount(s, time)] && rest == s[DueCount(s, time)..]
    ensures forall i :: 0 <= i < |due| ==> due[i].value <= time
    ensures forall i :: 0 <= i < |rest| ==> time < rest[i].value
  {
    var n := DueCount(s, time);
    DueExactly(s, time);
    due, rest := s[..n], s[n..];
    forall i | 0 <= i < |rest|
      ensures time < rest[i].value
    {
      assert rest[i] == s[n + i];
    }
  }

  /** A tick moves the entries due by its time from the sleepers to the readied
      tasks, and records its time for them. */
  lemma TickMoves(c: Clock) returns (due: seq<Entry<Task>>, rest: seq<Entry<Task>>)
    requires Orderly(c)
    ensures c.sleepers == due + rest
    ensures Tick(c) == Clock(c.now + 1, rest, c.readied + Stamped(due, c.now + 1))
    ensures forall i :: 0 <= i < |due| ==> c.now <= due[i].value <= c.now + 1
    ensures forall i :: 0 <= i < |rest| ==> c.now + 1 < rest[i].value
  {
    due, rest := DueSplit(c.sleepers, c.now + 1);
  }

  lemma {:induction false} TimesOfStamped(s: seq<Entry<Task>>, time: nat, t: Task)
    ensures |TimesOf(Stamped(s, time), t)| == |TimesOf(s, t)|
    ensures forall i :: 0 <= i < |TimesOf(s, t)| ==> TimesOf(Stamped(s, time), t)[i] == time
  {
    if s != [] {
      TimesOfStamped(s[1..], time, t);
      assert Stamped(s, time)[1..] == Stamped(s[1..], time);
    }
  }

  lemma StampedTimes(readied: seq<Entry<Task>>, base: nat, moved: seq<Entry<Task>>, time: nat, t: Task)
    returns (stamps: seq<nat>)
    requires base <= |readied|
    ensures TimesOf((readied + Stamped(moved, time))[base..], t) == TimesOf(readied[base..], t) + stamps
    ensures |stamps| == |TimesOf(moved, t)| && forall i :: 0 <= i < |stamps| ==> stamps[i] == time
  {
    var stamped := Stamped(moved, time);
    stamps := TimesOf(stamped, t);
    TimesOfStamped(moved, time, t);
    assert (readied + stamped)[base..] == readied[base..] + stamped;
    TimesOfConcat(readied[base..], stamped, t);
  }

  /** What a tick does to the times of one task. */
  lemma TickTimes(c: Clock, base: nat, t: Task) returns (due: seq<nat>, rest: seq<nat>, stamps: seq<nat>)
    requires Orderly(c) && base <= |c.readied|
    ensures TimesOf(c.sleepers, t) == due + rest && TimesOf(Tick(c).sleepers, t) == rest
    ensures TimesOf(Tick(c).readied[base..], t) == TimesOf(c.readied[base..], t) + stamps
    ensures forall i :: 0 <= i < |due| ==> due[i] <= c.now + 1
    ensures forall i :: 0 <= i < |rest| ==> c.now + 1 < rest[i]
    ensures |stamps| == |due| && forall i :: 0 <= i < |due| ==> stamps[i] == c.now + 1
  {
    var moved, left := TickMoves(c);
    due, rest := TimesOf(moved, t), TimesOf(left, t);
    stamps := StampedTimes(c.readied, base, moved, c.now + 1, t);
    TimesOfConcat(moved, left, t);
    TimesOfBounds(moved, t, c.now, c.now + 1);
    AboveTimes(left, t, c.now + 1);
  }

  lemma TickWakesAt(c: Clock, base: nat, t: Task, w: nat)
    requires Orderly(c) && WakesAt(c, base, t, w)
    ensures WakesAt(Tick(c), base, t, w)
  {
    var due, rest, stamps := TickTimes(c, base, t);
    WakeNowOrLater(due, rest, c.now, w);
    assert stamps == due;
  }

  /** Of a single wake time, now + 1 goes to the due part and later to the rest. */
  lemma WakeNowOrLater(due: seq<nat>, rest: seq<nat>, now: nat, w: nat)
    requires due + rest == if now < w then [w] else []
    requires forall i :: 0 <= i < |due| ==> due[i] <= now + 1
    requires forall i :: 0 <= i < |rest| ==> now + 1 < rest[i]
    ensures rest == if now + 1 < w then [w] else []
    ensures due == if w == now + 1 then [w] else []
  {
    assert |due| + |rest| <= 1;
    if |due| == 1 {
      assert (due + rest)[0] == due[0];
    } else if |rest| == 1 {
      assert (due + rest)[0] == rest[0];
    }
  }

  lemma {:induction false} AboveTimes(s: seq<Entry<Task>>, t: Task, low: int)
    requires forall i :: 0 <= i < |s| ==> low < s[i].value
    ensures forall i :: 0 <= i < |TimesOf(s, t)| ==> low < TimesOf(s, t)[i]
  {
    if s != [] {
      AboveTimes(s[1..], t, low);
    }
  }

  lemma TickSpares(c: Clock, base: nat, t: Task, w: nat)
    requires Orderly(c) && WakesAt(c, base, t, w)
    ensures Orderly(Tick(c)) && WakesAt(Tick(c), base, t, w) && Tick(c).now == c.now + 1
  {
    TickKeepsOrder(c);
    TickWakesAt(c, base, t, w);
  }

  lemma SleepSpares(c: Clock, base: nat, t: Task, w: nat, u: Task, ticks: nat)
    requires Orderly(c) && WakesAt(c, base, t, w) && u != t
    ensures Orderly(Sleep(c, u, ticks)) && WakesAt(Sleep(c, u, ticks), base, t, w)
  {
    SleepKeepsOrder(c, u, ticks);
    TimesOfInsert(c.sleepers, Entry(c.now + ticks, u), t);
  }

  lemma WakeSpares(c: Clock, base: nat, t: Task, w: nat, u: Task)
    requires Orderly(c) && WakesAt(c, base, t, w) && u != t
    ensures Orderly(Wake(c, u)) && WakesAt(Wake(c, u), base, t, w)
  {
    WithoutKeepsOrder(c.sleepers, u, c.now);
    TimesOfWithout(c.sleepers, u, t);
  }

  lemma {:induction false} RunWakesAt(c: Clock, base: nat, t: Task, w: nat, ops: seq<Op>)
    requires Orderly(c) && WakesAt(c, base, t, w) && forall i :: 0 <= i < |ops| ==> LeavesAlone(ops[i], t)
    ensures Orderly(Run(c, ops)) && WakesAt(Run(c, ops), base, t, w)
    decreases |ops|
  {
    if ops != [] {
      match ops[0] {
        case TickOp => TickSpares(c, base, t, w);
        case SleepOp(u, ticks) => SleepSpares(c, base, t, w, u, ticks);
        case WakeOp(u) => WakeSpares(c, base, t, w, u);
      }
      RunWakesAt(Apply(c, ops[0]), base, t, w, ops[1..]);
    }
  }

  /** A task that goes to sleep for k ticks and gets no event is asleep until
      the k-th later tick, and is readied once, by exactly that tick. */
  lemma SleepsExactly(c: Clock, t: Task, k: nat, ops: seq<Op>)
    requires Orderly(c) && k > 0 && TimesOf(c.sleepers, t) == []
    requires forall i :: 0 <= i < |ops| ==> LeavesAlone(ops[i], t)
    ensures var c' := Run(Sleep(c, t, k), ops);
            && |c.readied| <= |c'.readied|
            && TimesOf(c'.sleepers, t) == (if c'.now < c.now + k then [c.now + k] else [])
            && TimesOf(c'.readied[|c.readied|..], t) == (if c'.now < c.now + k then [] else [c.now + k])
  {
    SleepKeepsOrder(c, t, k);
    TimesOfInsert(c.sleepers, Entry(c.now + k, t), t);
    RunWakesAt(Sleep(c, t, k), |c.readied|, t, c.now + k, ops);
  }

  lemma OneOrOther(due: seq<nat>, rest: seq<nat>, time: nat)
    requires due + rest == [time]
    ensures (due == [time] && rest == []) || time in rest
  {
    if due == [] {
      assert due + rest == rest;
    } else {
      assert due == (due + rest)[..|due|];
    }
  }

  lemma ZeroStamped(due: seq<nat>, rest: seq<nat>, stamps: seq<nat>, now: nat)
    requires due + rest == [now] && forall i :: 0 <= i < |rest| ==> now + 1 < rest[i]
    requires |stamps| == |due| && forall i :: 0 <= i < |stamps| ==> stamps[i] == now + 1
    ensures rest == [] && stamps == [now + 1]
  {
    OneOrOther(due, rest, now);
    assert now !in rest;
  }

  /** A task that goes to sleep for no time is readied by the next tick. */
  lemma ZeroSleepIsOneTick(c: Clock, t: Task)
    requires Orderly(c) && TimesOf(c.sleepers, t) == []
    ensures var c' := Tick(Sleep(c, t, 0));
            && |c.readied| <= |c'.readied| && TimesOf(c'.sleepers, t) == []
            && TimesOf(c'.readied[|c.readied|..], t) == [c.now + 1]
  {
    SleepKeepsOrder(c, t, 0);
    TimesOfInsert(c.sleepers, Entry(c.now, t), t);
    var due, rest, stamps := TickTimes(Sleep(c, t, 0), |c.readied|, t);
    ZeroStamped(due, rest, stamps, c.now);
    assert c.readied[|c.readied|..] == [];
  }
}

/** The calls of the kernel as the clock sees them, with the ticks and tasks
    held back while the scheduler is suspended. */
module SleepCalls {
  import opened ListModel
  import opened SleepClock

  function WakeAll(c: Clock, ts: seq<Task>): Clock
    decreases |ts|
  {
    if ts == [] then c else WakeAll(Wake(c, ts[0]), ts[1..])
  }

  function WithoutTask(s: seq<Task>, t: Task): seq<Task> {
    if s == [] then [] else (if s[0] == t then [] else [s[0]]) + WithoutTask(s[1..], t)
  }

  function WithoutTasks(s: seq<Task>, ts: seq<Task>): seq<Task>
    decreases |ts|
  {
    if ts == [] then s else WithoutTasks(WithoutTask(s, ts[0]), ts[1..])
  }

  /** Exactly the one task is gone. */
  lemma {:induction false} WithoutTaskExactly(s: seq<Task>, t: Task, u: Task)
    ensures multiset(WithoutTask(s, t))[u] == if u == t then 0 else multiset(s)[u]
  {
    if s != [] {
      assert s == [s[0]] + s[1..];
      WithoutTaskExactly(s[1..], t, u);
    }
  }

  /** Exactly the tasks given are gone. */
  lemma {:induction false} WithoutTasksExactly(s: seq<Task>, ts: seq<Task>, u: Task)
    ensures multiset(WithoutTasks(s, ts))[u] == if u in ts then 0 else multiset(s)[u]
    decreases |ts|
  {
    if ts != [] {
      WithoutTaskExactly(s, ts[0], u);
      WithoutTasksExactly(WithoutTask(s, ts[0]), ts[1..], u);
    }
  }

  datatype Kernel = Kernel(clock: Clock, suspended: nat, pended: nat, pendingReady: seq<Task>)

  datatype Call =
    | Interrupt                     // a tick interrupt
    | SuspendAll
    | ResumeAll
    | Delay(t: Task, ticks: nat)    // a task goes to sleep
    | Event(t: Task)                // the event that a task waits for
    | Ready(t: Task)                // a task readied at once, suspended or not

  predicate Possible(k: Kernel, call: Call) {
    match call
    case ResumeAll => k.suspended > 0
    case _ => true
  }

  function AfterCall(k: Kernel, call: Call): Kernel
    requires Possible(k, call)
  {
    match call
    case Interrupt => if k.suspended == 0 then k.(clock := Tick(k.clock)) else k.(pended := k.pended + 1)
    case SuspendAll => k.(suspended := k.suspended + 1)
    case ResumeAll =>
      if k.suspended == 1 then Kernel(Ticks(WakeAll(k.clock, k.pendingReady), k.pended), 0, 0, [])
      else k.(suspended := k.suspended - 1)
    case Delay(t, ticks) => k.(clock := Sleep(k.clock, t, ticks))
    case Event(t) =>
      if k.suspended == 0 then k.(clock := Wake(k.clock, t)) else k.(pendingReady := k.pendingReady + [t])
    case Ready(t) =>
      k.(clock := Wake(k.clock, t), pendingReady := WithoutTask(k.pendingReady, t))
  }

  predicate LegalCalls(k: Kernel, calls: seq<Call>)
    decreases |calls|
  {
    calls == [] || (Possible(k, calls[0]) && LegalCalls(AfterCall(k, calls[0]), calls[1..]))
  }

  function AfterCalls(k: Kernel, calls: seq<Call>): Kernel
    requires LegalCalls(k, calls)
    decreases |calls|
  {
    if calls == [] then k else AfterCalls(AfterCall(k, calls[0]), calls[1..])
  }

  function Interrupts(calls: seq<Call>): nat {
    if calls == [] then 0 else (if calls[0].Interrupt? then 1 else 0) + Interrupts(calls[1..])
  }

  /** Neither a sleep of the task nor a wake-up. */
  predicate SparesTask(call: Call, t: Task) {
    match call
    case Delay(u, _) => u != t
    case Event(u) => u != t
    case Ready(u) => u != t
    case _ => true
  }

  ghost predicate Bound(k: Kernel, base: nat, t: Task, w: nat) {
    Orderly(k.clock) && WakesAt(k.clock, base, t, w) && t !in k.pendingReady
  }

  lemma {:induction false} WakeAllSpares(c: Clock, base: nat, t: Task, w: nat, ts: seq<Task>)
    requires Orderly(c) && WakesAt(c, base, t, w) && t !in ts
    ensures Orderly(WakeAll(c, ts)) && WakesAt(WakeAll(c, ts), base, t, w) && WakeAll(c, ts).now == c.now
    decreases |ts|
  {
    if ts != [] {
      WakeSpares(c, base, t, w, ts[0]);
      WakeAllSpares(Wake(c, ts[0]), base, t, w, ts[1..]);
    }
  }

  lemma {:induction false} TicksNow(c: Clock, n: nat)
    ensures Ticks(c, n).now == c.now + n
    decreases n
  {
    if n > 0 {
      TicksNow(Tick(c), n - 1);
    }
  }

  lemma TicksSpare(c: Clock, base: nat, t: Task, w: nat, n: nat)
    requires Orderly(c) && WakesAt(c, base, t, w)
    ensures Orderly(Ticks(c, n)) && WakesAt(Ticks(c, n), base, t, w) && Ticks(c, n).now == c.now + n
  {
    TicksNow(c, n);
    TicksAreRun(c, n);
    RunWakesAt(c, base, t, w, seq(n, _ => TickOp));
  }

  lemma ResumeSpares(c: Clock, base: nat, t: Task, w: nat, ready: seq<Task>, pended: nat)
    requires Orderly(c) && WakesAt(c, base, t, w) && t !in ready
    ensures var c' := Ticks(WakeAll(c, ready), pended);
            Orderly(c') && WakesAt(c', base, t, w) && c'.now == c.now + pended
  {
    WakeAllSpares(c, base, t, w, ready);
    TicksSpare(WakeAll(c, ready), base, t, w, pended);
  }

  lemma {:induction false} WithoutTaskSpares(s: seq<Task>, u: Task, t: Task)
    requires t !in s
    ensures t !in WithoutTask(s, u)
  {
    if s != [] {
      WithoutTaskSpares(s[1..], u, t);
    }
  }

  lemma CallSpares(k: Kernel, base: nat, t: Task, w: nat, call: Call)
    requires Bound(k, base, t, w) && Possible(k, call) && SparesTask(call, t) && (k.suspended == 0 ==> k.pended == 0)
    ensures Bound(AfterCall(k, call), base, t, w)
    ensures var k' := AfterCall(k, call);
            && k'.clock.now + k'.pended == k.clock.now + k.pended + (if call.Interrupt? then 1 else 0)
            && (k'.suspended == 0 ==> k'.pended == 0)
  {
    match call
    case Interrupt => TickSpares(k.clock, base, t, w);
    case SuspendAll =>
    case ResumeAll => ResumeSpares(k.clock, base, t, w, k.pendingReady, k.pended);
    case Delay(u, ticks) => SleepSpares(k.clock, base, t, w, u, ticks);
    case Event(u) => WakeSpares(k.clock, base, t, w, u);
    case Ready(u) =>
      WakeSpares(k.clock, base, t, w, u);
      WithoutTaskSpares(k.pendingReady, u, t);
  }

  lemma {:induction false} CallsSpare(k: Kernel, base: nat, t: Task, w: nat, calls: seq<Call>)
    requires Bound(k, base, t, w) && (k.suspended == 0 ==> k.pended == 0)
    requires LegalCalls(k, calls) && forall i :: 0 <= i < |calls| ==> SparesTask(calls[i], t)
    ensures Bound(AfterCalls(k, calls), base, t, w)
    ensures var k' := AfterCalls(k, calls);
            && k'.clock.now + k'.pended == k.clock.now + k.pended + Interrupts(calls)
            && (k'.suspended == 0 ==> k'.pended == 0)
    decreases |calls|
  {
    if calls != [] {
      CallSpares(k, base, t, w, calls[0]);
      CallsSpare(AfterCall(k, calls[0]), base, t, w, calls[1..]);
    }
  }

  /** A task that goes to sleep for n ticks and gets no event is asleep until
      the n-th later tick has been processed, and readied once, by exactly that
      tick, whatever calls of other tasks come in between; and whenever the
      scheduler is not suspended every tick interrupt has been processed. */
  lemma SleepsThroughCalls(k: Kernel, t: Task, n: nat, calls: seq<Call>)
    requires Orderly(k.clock) && n > 0 && TimesOf(k.clock.sleepers, t) == [] && t !in k.pendingReady
    requires k.suspended == 0 ==> k.pended == 0
    requires LegalCalls(AfterCall(k, Delay(t, n)), calls) && forall i :: 0 <= i < |calls| ==> SparesTask(calls[i], t)
    ensures var k', from, w := AfterCalls(AfterCall(k, Delay(t, n)), calls), |k.clock.readied|, k.clock.now + n;
            && from <= |k'.clock.readied|
            && TimesOf(k'.clock.sleepers, t) == (if k'.clock.now < w then [w] else [])
            && TimesOf(k'.clock.readied[from..], t) == (if k'.clock.now < w then [] else [w])
            && k'.clock.now + k'.pended == k.clock.now + k.pended + Interrupts(calls)
            && (k'.suspended == 0 ==> k'.pended == 0)
  {
    SleepKeepsOrder(k.clock, t, n);
    TimesOfInsert(k.clock.sleepers, Entry(k.clock.now + n, t), t);
    CallsSpare(AfterCall(k, Delay(t, n)), |k.clock.readied|, t, k.clock.now + n, calls);
  }
}

/** Item values are tick counts, so the delayed lists show only the position
    of a wake time within its round of the counter. */
module Rounds {
  import opened ListModel
  import opened SleepClock

  /** A list of item values as wake times, in the round that starts at base. */
  function Shift(s: seq<Entry<Task>>, base: nat): (r: seq<Entry<Task>>)
    ensures |r| == |s| && forall i :: 0 <= i < |s| ==> r[i] == Entry(s[i].value + base, s[i].owner)
  {
    if s == [] then [] else [Entry(s[0].value + base, s[0].owner)] + Shift(s[1..], base)
  }

  lemma {:induction false} InsertShifted(s: seq<Entry<Task>>, e: Entry<Task>, base: nat)
    ensures InsertSorted(Shift(s, base), Entry(e.value + base, e.owner)) == Shift(InsertSorted(s, e), base)
  {
    if s != [] && s[0].value <= e.value {
      InsertShifted(s[1..], e, base);
      assert InsertSorted(s, e)[1..] == InsertSorted(s[1..], e);
      assert Shift(s, base)[1..] == Shift(s[1..], base);
    }
  }

  lemma {:induction false} InsertInFront(a: seq<Entry<Task>>, b: seq<Entry<Task>>, e: Entry<Task>)
    requires b != [] ==> e.value < b[0].value
    ensures InsertSorted(a + b, e) == InsertSorted(a, e) + b
  {
    if a == [] {
      assert a + b == b;
    } else if a[0].value <= e.value {
      InsertInFront(a[1..], b, e);
      assert (a + b)[1..] == a[1..] + b;
    }
  }

  lemma {:induction false} InsertBehind(a: seq<Entry<Task>>, b: seq<Entry<Task>>, e: Entry<Task>)
    requires forall i :: 0 <= i < |a| ==> a[i].value <= e.value
    ensures InsertSorted(a + b, e) == a + InsertSorted(b, e)
  {
    if a == [] {
      assert a + b == b;
    } else {
      InsertBehind(a[1..], b, e);
      assert (a + b)[1..] == a[1..] + b;
    }
  }

  lemma ConcatAssociates<T>(a: seq<T>, b: seq<T>, c: seq<T>)
    ensures a + (b + c) == a + b + c
  {
  }

  lemma {:induction false} WithoutConcat(a: seq<Entry<Task>>, b: seq<Entry<Task>>, t: Task)
    ensures Without(a + b, t) == Without(a, t) + Without(b, t)
  {
    if a == [] {
      assert a + b == b;
    } else {
      WithoutConcat(a[1..], b, t);
      assert (a + b)[0] == a[0] && (a + b)[1..] == a[1..] + b;
      ConcatAssociates(if a[0].owner == t then [] else [a[0]], Without(a[1..], t), Without(b, t));
    }
  }

  lemma {:induction false} ShiftConcat(a: seq<Entry<Task>>, b: seq<Entry<Task>>, base: nat)
    ensures Shift(a + b, base) == Shift(a, base) + Shift(b, base)
  {
  }

  lemma {:induction false} WithoutShifted(s: seq<Entry<Task>>, t: Task, base: nat)
    ensures Without(Shift(s, base), t) == Shift(Without(s, t), base)
  {
    if s != [] {
      WithoutShifted(s[1..], t, base);
      ShiftConcat(if s[0].owner == t then [] else [s[0]], Without(s[1..], t), base);
    }
  }

  /** The sleepers that two delayed lists stand for: the current list in the
      round that starts at base, the other list in the round after it. */
  function Merged(delayed: seq<Entry<Task>>, overflow: seq<Entry<Task>>, base: nat, round: nat): seq<Entry<Task>> {
    Shift(delayed, base) + Shift(overflow, base + round)
  }

  lemma MergedInsertCurrent(delayed: seq<Entry<Task>>, overflow: seq<Entry<Task>>, base: nat, round: nat,
                            e: Entry<Task>)
    requires e.value < round
    ensures InsertSorted(Merged(delayed, overflow, base, round), Entry(base + e.value, e.owner))
         == Merged(InsertSorted(delayed, e), overflow, base, round)
  {
    InsertInFront(Shift(delayed, base), Shift(overflow, base + round), Entry(base + e.value, e.owner));
    InsertShifted(delayed, e, base);
  }

  lemma ShiftBelow(s: seq<Entry<Task>>, base: nat, low: int)
    requires forall i :: 0 <= i < |s| ==> s[i].value + base <= low
    ensures forall i :: 0 <= i < |Shift(s, base)| ==> Shift(s, base)[i].value <= low
  {
  }

  lemma MergedInsertNext(delayed: seq<Entry<Task>>, overflow: seq<Entry<Task>>, base: nat, round: nat, e: Entry<Task>)
    requires forall i :: 0 <= i < |delayed| ==> delayed[i].value < round
    ensures InsertSorted(Merged(delayed, overflow, base, round), Entry(base + round + e.value, e.owner))
         == Merged(delayed, InsertSorted(overflow, e), base, round)
  {
    var next := Entry(base + round + e.value, e.owner);
    assert next == Entry(e.value + (base + round), e.owner);
    ShiftBelow(delayed, base, next.value);
    InsertBehind(Shift(delayed, base), Shift(overflow, base + round), next);
    InsertShifted(overflow, e, base + round);
  }

  lemma MergedWithout(delayed: seq<Entry<Task>>, overflow: seq<Entry<Task>>, base: nat, round: nat, t: Task)
    ensures Without(Merged(delayed, overflow, base, round), t)
         == Merged(Without(delayed, t), Without(overflow, t), base, round)
  {
    WithoutConcat(Shift(delayed, base), Shift(overflow, base + round), t);
    WithoutShifted(delayed, t, base);
    WithoutShifted(overflow, t, base + round);
  }
}

/** The tick handling of tasks.c, for one core. */
module TickHandling {
  import opened Arithmetic
  import opened ListModel
  import opened SleepClock
  import opened SleepCalls
  import opened Rounds

  /** The true time at which the counter has wrapped n times. */
  function RoundStart(n: nat, round: nat): nat {
    if n == 0 then 0 else RoundStart(n - 1, round) + round
  }

  /** The counter is the true time modulo the round, and the overflow count
      is how often it has wrapped. */
  lemma {:induction false} CounterIsTime(now: nat, overflows: nat, tickCount: nat, round: nat)
    requires tickCount < round && now == RoundStart(overflows, round) + tickCount
    ensures now % round == tickCount && now / round == overflows
    decreases overflows
  {
    if overflows > 0 {
      CounterIsTime(now - round, overflows - 1, tickCount, round);
      DivModUnique(now, overflows, tickCount, round);
    } else {
      DivModUnique(now, 0, tickCount, round);
    }
  }

  /** Taking the first j current items takes the first j sleepers. */
  lemma MergedDrop(delayed: seq<Entry<Task>>, overflow: seq<Entry<Task>>, base: nat, round: nat, j: nat)
    requires j <= |delayed|
    ensures Merged(delayed, overflow, base, round)[j..] == Merged(delayed[j..], overflow, base, round)
  {
  }

  /** When the head of the current list is not due, exactly the items before it were. */
  lemma MergedDue(delayed: seq<Entry<Task>>, overflow: seq<Entry<Task>>, base: nat, round: nat, tick: nat, j: nat)
    requires j <= |delayed| && tick < round
    requires forall i :: 0 <= i < j ==> delayed[i].value <= tick
    requires j < |delayed| ==> tick < delayed[j].value
    ensures DueCount(Merged(delayed, overflow, base, round), base + tick) == j
  {
    DueCountUnique(Merged(delayed, overflow, base, round), base + tick, j);
  }

  /** The counters and lists represent the sleepers of a clock at a time. */
  ghost predicate Consistent(c: Clock, time: nat, round: nat, base: nat, overflows: nat, tick: nat,
                             nextUnblock: nat, delayed: seq<Entry<Task>>, overflow: seq<Entry<Task>>)
  {
    && tick < round && base == RoundStart(overflows, round) && time == base + tick
    && c.sleepers == Merged(delayed, overflow, base, round) && Orderly(c)
    && (forall i :: 0 <= i < |delayed| ==> delayed[i].value < round)
    && (forall i :: 0 <= i < |overflow| ==> overflow[i].value < round)
    && nextUnblock < round && (delayed != [] ==> nextUnblock <= delayed[0].value)
    && (time == c.now && tick + 1 == round ==> NoneNow(c))
  }

  /** prvResetNextTaskUnblockTime. */
  function UnblockTime(delayed: seq<Entry<Task>>, round: nat): int {
    if delayed == [] then round - 1 else delayed[0].value
  }

  /** The counter moves on within a round. */
  lemma AdvanceWithinRound(c: Clock, round: nat, base: nat, overflows: nat, tick: nat,
                           nextUnblock: nat, delayed: seq<Entry<Task>>, overflow: seq<Entry<Task>>)
    requires Consistent(c, c.now, round, base, overflows, tick, nextUnblock, delayed, overflow)
    requires tick + 1 < round
    ensures Consistent(c, c.now + 1, round, base, overflows, tick + 1, nextUnblock, delayed, overflow)
  {
  }

  /** The counter wraps: nobody is left to wake in the old round, so the
      assertion of taskSWITCH_DELAYED_LISTS holds, and the swap changes no
      wake time. */
  lemma AdvanceToNextRound(c: Clock, round: nat, base: nat, overflows: nat, tick: nat,
                           nextUnblock: nat, delayed: seq<Entry<Task>>, overflow: seq<Entry<Task>>)
    requires Consistent(c, c.now, round, base, overflows, tick, nextUnblock, delayed, overflow)
    requires tick + 1 == round
    ensures delayed == []
    ensures Consistent(c, c.now + 1, round, base + round, overflows + 1, 0, UnblockTime(overflow, round), overflow, [])
  {
    if delayed != [] {
      MergedHead(delayed, overflow, base, round);
      assert false;
    }
    assert Merged(delayed, overflow, base, round) == Merged(overflow, [], base + round, round);
  }

  lemma TickMerged(c: Clock, round: nat, base: nat, tick: nat,
                   delayed: seq<Entry<Task>>, overflow: seq<Entry<Task>>, j: nat)
    requires c.sleepers == Merged(delayed, overflow, base, round) && c.now + 1 == base + tick && tick < round
    requires j <= |delayed| && (forall i :: 0 <= i < j ==> delayed[i].value <= tick)
    requires j < |delayed| ==> tick < delayed[j].value
    ensures Tick(c) == Clock(c.now + 1, Merged(delayed[j..], overflow, base, round),
                             c.readied + Stamped(c.sleepers[..j], c.now + 1))
    ensures Owners(Tick(c).readied[|c.readied|..]) == Owners(delayed[..j])
  {
    MergedDue(delayed, overflow, base, round, tick, j);
    MergedDrop(delayed, overflow, base, round, j);
    StampedOwners(delayed, overflow, base, round, j, c.now + 1);
    assert Tick(c).readied[|c.readied|..] == Stamped(c.sleepers[..j], c.now + 1);
  }

  lemma TailBounded(s: seq<Entry<Task>>, j: nat, round: nat)
    requires j <= |s| && forall i :: 0 <= i < |s| ==> s[i].value < round
    ensures forall i :: 0 <= i < |s[j..]| ==> s[j..][i].value < round
  {
  }

  lemma TailConsistent(c: Clock, round: nat, base: nat, overflows: nat, tick: nat,
                       delayed: seq<Entry<Task>>, overflow: seq<Entry<Task>>)
    requires tick < round && base == RoundStart(overflows, round) && c.now == base + tick
    requires c.sleepers == Merged(delayed, overflow, base, round) && Orderly(c)
    requires forall i :: 0 <= i < |delayed| ==> delayed[i].value < round
    requires forall i :: 0 <= i < |overflow| ==> overflow[i].value < round
    requires NoneNow(c)
    ensures Consistent(c, c.now, round, base, overflows, tick, UnblockTime(delayed, round), delayed, overflow)
  {
  }

  /** One tick of the clock, with exactly the tasks it wakes made ready. */
  ghost predicate Ticked(c: Clock, ready: seq<Task>, c': Clock, ready': seq<Task>) {
    c' == Tick(c) && ready' == ready + Owners(c'.readied[|c.readied|..])
  }

  /** Since c the ready lists have got the tasks that the clock has readied, in
      the order of their ticks. */
  ghost predicate Readied(c: Clock, ready: seq<Task>, c': Clock, ready': seq<Task>) {
    |c.readied| <= |c'.readied| && ready' == ready + Owners(c'.readied[|c.readied|..])
  }

  lemma NothingReadied(c: Clock, ready: seq<Task>)
    ensures Readied(c, ready, c, ready)
  {
    assert ready + [] == ready;
  }

  lemma OneTickReadied(c: Clock, r: seq<Task>, d: Clock, r': seq<Task>, e: Clock, r'': seq<Task>)
    requires Readied(c, r, d, r') && Ticked(d, r', e, r'')
    ensures Readied(c, r, e, r'')
  {
    var first, second := d.readied[|c.readied|..], e.readied[|d.readied|..];
    assert e.readied == d.readied + second;
    assert e.readied[|c.readied|..] == first + second;
    assert Owners(first + second) == Owners(first) + Owners(second);
    Associate(r, Owners(first), Owners(second));
  }

  lemma Associate(a: seq<Task>, b: seq<Task>, c: seq<Task>)
    ensures (a + b) + c == a + (b + c)
  {
  }

  lemma NextOfTrace(trace: seq<Clock>, i: nat, c: Clock, r: seq<Task>, c': Clock, r': seq<Task>)
    requires IsTrace(trace) && i + 1 < |trace| && trace[i] == c && Ticked(c, r, c', r')
    ensures c' == trace[i + 1]
  {
    assert trace[i + 1] == Tick(trace[i + 1 - 1]);
  }

  lemma TickOfDue(c: Clock, r: seq<Task>, round: nat, base: nat, overflows: nat, tick: nat, nextUnblock: nat,
                  delayed: seq<Entry<Task>>, overflow: seq<Entry<Task>>, j: nat) returns (d: Clock)
    requires Consistent(c, c.now + 1, round, base, overflows, tick, nextUnblock, delayed, overflow)
    requires j <= |delayed| && (forall i :: 0 <= i < j ==> delayed[i].value <= tick)
    requires j < |delayed| ==> tick < delayed[j].value
    ensures d.now == c.now + 1 && d.sleepers == Merged(delayed[j..], overflow, base, round) && Orderly(d) && NoneNow(d)
    ensures Ticked(c, r, d, r + Owners(delayed[..j]))
  {
    TickMerged(c, round, base, tick, delayed, overflow, j);
    TickKeepsOrder(c);
    d := Tick(c);
  }

  /** When exactly the items due have been taken off, the lists show the clock
      that has ticked. */
  lemma TickConsistent(c: Clock, d: Clock, round: nat, base: nat, overflows: nat, tick: nat,
                       nextUnblock: nat, delayed: seq<Entry<Task>>, overflow: seq<Entry<Task>>, j: nat)
    requires Consistent(c, d.now, round, base, overflows, tick, nextUnblock, delayed, overflow) && j <= |delayed|
    requires d.sleepers == Merged(delayed[j..], overflow, base, round) && Orderly(d) && NoneNow(d)
    ensures Consistent(d, d.now, round, base, overflows, tick, UnblockTime(delayed[j..], round), delayed[j..], overflow)
  {
    TailBounded(delayed, j, round);
    TailConsistent(d, round, base, overflows, tick, delayed[j..], overflow);
  }

  lemma NoneDue(c: Clock, round: nat, base: nat, overflows: nat, tick: nat,
                nextUnblock: nat, delayed: seq<Entry<Task>>, overflow: seq<Entry<Task>>)
    requires Consistent(c, c.now + 1, round, base, overflows, tick, nextUnblock, delayed, overflow)
    requires tick < nextUnblock
    ensures c.sleepers == [] || c.now + 1 < c.sleepers[0].value
  {
  }

  lemma TickIdle(c: Clock, r: seq<Task>) returns (d: Clock)
    requires (c.sleepers == [] || c.now + 1 < c.sleepers[0].value) && Orderly(c)
    ensures Ticked(c, r, d, r) && d.now == c.now + 1 && d.sleepers == c.sleepers && Orderly(d) && NoneNow(d)
  {
    TickKeepsOrder(c);
    d := Tick(c);
    assert r + [] == r;
  }

  lemma TickOfNone(c: Clock, r: seq<Task>, round: nat, base: nat, overflows: nat, tick: nat,
                   nextUnblock: nat, delayed: seq<Entry<Task>>, overflow: seq<Entry<Task>>) returns (d: Clock)
    requires Consistent(c, c.now + 1, round, base, overflows, tick, nextUnblock, delayed, overflow)
    requires tick < nextUnblock
    ensures Ticked(c, r, d, r) && d.now == c.now + 1 && d.sleepers == c.sleepers && Orderly(d) && NoneNow(d)
  {
    NoneDue(c, round, base, overflows, tick, nextUnblock, delayed, overflow);
    d := TickIdle(c, r);
  }

  /** A clock that has moved on past nobody's wake time: the unblock time stays. */
  lemma SameSleepers(c: Clock, d: Clock, round: nat, base: nat, overflows: nat, tick: nat,
                     nextUnblock: nat, delayed: seq<Entry<Task>>, overflow: seq<Entry<Task>>)
    requires Consistent(c, d.now, round, base, overflows, tick, nextUnblock, delayed, overflow)
    requires d.sleepers == c.sleepers && Orderly(d) && NoneNow(d)
    ensures Consistent(d, d.now, round, base, overflows, tick, nextUnblock, delayed, overflow)
  {
  }

  lemma UnblockTimeConsistent(c: Clock, round: nat, base: nat, overflows: nat, tick: nat,
                              nextUnblock: nat, delayed: seq<Entry<Task>>, overflow: seq<Entry<Task>>)
    requires Consistent(c, c.now, round, base, overflows, tick, nextUnblock, delayed, overflow)
    ensures Consistent(c, c.now, round, base, overflows, tick, UnblockTime(delayed, round), delayed, overflow)
  {
  }

  lemma {:induction false} WithoutBounded(s: seq<Entry<Task>>, t: Task, low: int, high: int)
    requires forall i :: 0 <= i < |s| ==> low <= s[i].value < high
    ensures forall i :: 0 <= i < |Without(s, t)| ==> low <= Without(s, t)[i].value < high
  {
    if s != [] {
      WithoutBounded(s[1..], t, low, high);
    }
  }

  lemma WakeConsistent(c: Clock, round: nat, base: nat, overflows: nat, tick: nat,
                       nextUnblock: nat, delayed: seq<Entry<Task>>, overflow: seq<Entry<Task>>, t: Task)
    requires Consistent(c, c.now, round, base, overflows, tick, nextUnblock, delayed, overflow)
    ensures Consistent(Wake(c, t), c.now, round, base, overflows, tick, nextUnblock, Without(delayed, t),
                       Without(overflow, t))
  {
    MergedWithout(delayed, overflow, base, round, t);
    WakeKeepsOrder(c, t);
    DelayedSorted(c, round, base, delayed, overflow);
    WithoutBounded(delayed, t, nextUnblock, round);
    WithoutBounded(overflow, t, 0, round);
  }

  /** The head of the current list is its least item. */
  lemma DelayedSorted(c: Clock, round: nat, base: nat, delayed: seq<Entry<Task>>, overflow: seq<Entry<Task>>)
    requires c.sleepers == Merged(delayed, overflow, base, round) && Orderly(c)
    ensures forall i :: 0 <= i < |delayed| ==> delayed[0].value <= delayed[i].value
  {
    forall i | 0 <= i < |delayed|
      ensures delayed[0].value <= delayed[i].value
    {
      assert c.sleepers[i].value == delayed[i].value + base && c.sleepers[0].value == delayed[0].value + base;
    }
  }

  lemma InitialConsistent(round: nat)
    requires round >= 2
    ensures Consistent(Clock(0, [], []), 0, round, 0, 0, 0, round - 1, [], [])
  {
  }

  lemma InsertCurrentConsistent(c: Clock, round: nat, base: nat, overflows: nat, tick: nat,
                                nextUnblock: nat, delayed: seq<Entry<Task>>, overflow: seq<Entry<Task>>,
                                t: Task, ticks: nat)
    requires Consistent(c, c.now, round, base, overflows, tick, nextUnblock, delayed, overflow)
    requires tick + ticks < round && (ticks > 0 || tick + 1 < round)
    ensures var next := if tick + ticks < nextUnblock then tick + ticks else nextUnblock;
            Consistent(Sleep(c, t, ticks), c.now, round, base, overflows, tick, next,
                       InsertSorted(delayed, Entry(tick + ticks, t)), overflow)
  {
    SleepKeepsOrder(c, t, ticks);
    MergedInsertCurrent(delayed, overflow, base, round, Entry(tick + ticks, t));
    InsertBounded(delayed, Entry(tick + ticks, t), round);
  }

  lemma InsertOverflowConsistent(c: Clock, round: nat, base: nat, overflows: nat, tick: nat,
                                 nextUnblock: nat, delayed: seq<Entry<Task>>, overflow: seq<Entry<Task>>,
                                 t: Task, ticks: nat)
    requires Consistent(c, c.now, round, base, overflows, tick, nextUnblock, delayed, overflow)
    requires 0 < ticks < round && tick + ticks >= round
    ensures Consistent(Sleep(c, t, ticks), c.now, round, base, overflows, tick, nextUnblock,
                       delayed, InsertSorted(overflow, Entry(tick + ticks - round, t)))
  {
    SleepKeepsOrder(c, t, ticks);
    MergedInsertNext(delayed, overflow, base, round, Entry(tick + ticks - round, t));
    InsertBounded(overflow, Entry(tick + ticks - round, t), round);
  }

  class DelayedTasks {
    const round: nat                    // TickType_t counts modulo round
    var tickCount: nat                  // xTickCount
    var overflows: nat                  // xNumOfOverflows
    var nextUnblock: nat                // xNextTaskUnblockTime
    var delayed: seq<Entry<Task>>       // the list at pxDelayedTaskList
    var overflow: seq<Entry<Task>>      // the list at pxOverflowDelayedTaskList
    var blockedForever: seq<Task>       // xSuspendedTaskList
    var ready: seq<Task>                // tasks handed to the ready lists, in order
    var suspended: nat                  // uxSchedulerSuspended
    var pendedTicks: nat                // uxPendedTicks
    var pendingReady: seq<Task>         // xPendingReadyList

    ghost var clock: Clock
    ghost var base: nat                 // the true time at which the round began
    ghost var interrupts: nat           // tick interrupts so far

    ghost predicate Valid()
      reads this`clock, this`base, this`overflows, this`tickCount, this`nextUnblock, this`delayed, this`overflow
    {
      Consistent(clock, clock.now, round, base, overflows, tickCount, nextUnblock, delayed, overflow)
    }

    /** The counter has moved on, the lists have changed places if need be,
        and the sleepers due by now are still to be readied. */
    ghost predicate Advanced()
      reads this`clock, this`base, this`overflows, this`tickCount, this`nextUnblock, this`delayed, this`overflow
    {
      Consistent(clock, clock.now + 1, round, base, overflows, tickCount, nextUnblock, delayed, overflow)
    }

    /** The state that the calls are specified on. */
    ghost function View(): Kernel
      reads this`clock, this`suspended, this`pendedTicks, this`pendingReady
    {
      Kernel(clock, suspended, pendedTicks, pendingReady)
    }

    /** No tick is lost: what has not been processed is pended. */
    ghost predicate Counted()
      reads this`clock, this`pendedTicks, this`interrupts, this`suspended
    {
      clock.now + pendedTicks == interrupts && (suspended == 0 ==> pendedTicks == 0)
    }

    constructor (round: nat)
      requires round >= 2
      ensures Valid() && Counted() && this.round == round && clock == Clock(0, [], [])
      ensures suspended == 0 && pendingReady == [] && ready == []
    {
      InitialConsistent(round);
      this.round := round;
      tickCount, overflows, nextUnblock, suspended, pendedTicks := 0, 0, round - 1, 0, 0;
      delayed, overflow, blockedForever, ready, pendingReady := [], [], [], [], [];
      clock, base, interrupts := Clock(0, [], []), 0, 0;
    }

    /** prvAddCurrentTaskToDelayedList.  A block time of zero is the next tick's,
        and at the last count of a round would fail the assertion of
        taskSWITCH_DELAYED_LISTS; only the timer daemon uses it, at count zero. */
    method AddToDelayedList(t: Task, ticks: nat, canBlockIndefinitely: bool)
      requires Valid() && ticks < round && (ticks > 0 || tickCount + 1 < round)
      modifies this`delayed, this`overflow, this`blockedForever, this`nextUnblock, this`clock
      ensures Valid()
      ensures var forever := ticks == round - 1 && canBlockIndefinitely;
              && clock == (if forever then old(clock) else Sleep(old(clock), t, ticks))
              && blockedForever == (if forever then old(blockedForever) + [t] else old(blockedForever))
              && View() == (if forever then old(View()) else AfterCall(old(View()), Delay(t, ticks)))
    {
      if ticks == round - 1 && canBlockIndefinitely {
        blockedForever := blockedForever + [t];
      } else {
        var timeToWake := if tickCount + ticks < round then tickCount + ticks else tickCount + ticks - round;
        if timeToWake < tickCount {
          InsertOverflow(t, timeToWake, ticks);
        } else {
          InsertCurrent(t, timeToWake, ticks);
        }
      }
    }

    method InsertOverflow(t: Task, timeToWake: nat, ghost ticks: nat)
      requires Valid() && ticks < round && tickCount + ticks == round + timeToWake
      modifies this`overflow, this`clock
      ensures Valid() && clock == Sleep(old(clock), t, ticks)
    {
      InsertOverflowConsistent(clock, round, base, overflows, tickCount, nextUnblock, delayed, overflow, t, ticks);
      overflow := InsertSorted(overflow, Entry(timeToWake, t));
      clock := Sleep(clock, t, ticks);
    }

    method InsertCurrent(t: Task, timeToWake: nat, ghost ticks: nat)
      requires Valid() && tickCount + ticks == timeToWake < round && (ticks > 0 || tickCount + 1 < round)
      modifies this`delayed, this`nextUnblock, this`clock
      ensures Valid() && clock == Sleep(old(clock), t, ticks)
    {
      InsertCurrentConsistent(clock, round, base, overflows, tickCount, nextUnblock, delayed, overflow, t, ticks);
      delayed := InsertSorted(delayed, Entry(timeToWake, t));
      if timeToWake < nextUnblock {
        nextUnblock := timeToWake;
      }
      clock := Sleep(clock, t, ticks);
    }

    /** prvResetNextTaskUnblockTime. */
    method ResetNextUnblockTime()
      requires round > 0
      modifies this`nextUnblock
      ensures nextUnblock == UnblockTime(delayed, round)
    {
      if delayed == [] {
        nextUnblock := round - 1;
      } else {
        nextUnblock := delayed[0].value;
      }
    }

    /** taskSWITCH_DELAYED_LISTS, with its assertion. */
    method SwitchDelayedLists()
      requires delayed == [] && round > 0
      modifies this`delayed, this`overflow, this`overflows, this`nextUnblock
      ensures delayed == old(overflow) && overflow == [] && overflows == old(overflows) + 1
      ensures nextUnblock == UnblockTime(delayed, round)
    {
      delayed, overflow := overflow, delayed;
      overflows := overflows + 1;
      ResetNextUnblockTime();
    }

    /** The first half of xTaskIncrementTick. */
    method AdvanceCounter()
      requires Valid()
      modifies this`tickCount, this`overflows, this`nextUnblock, this`delayed, this`overflow, this`base
      ensures Advanced()
    {
      if tickCount + 1 == round {
        AdvanceToNextRound(clock, round, base, overflows, tickCount, nextUnblock, delayed, overflow);
        tickCount := 0;
        SwitchDelayedLists();
        base := base + round;
      } else {
        AdvanceWithinRound(clock, round, base, overflows, tickCount, nextUnblock, delayed, overflow);
        tickCount := tickCount + 1;
      }
    }

    /** The first j items have gone to the ready lists, being exactly those due. */
    ghost predicate UnblockedFirst(before: seq<Entry<Task>>, readyBefore: seq<Task>, j: nat)
      reads this`delayed, this`ready, this`tickCount
    {
      && j <= |before| && delayed == before[j..] && ready == readyBefore + Owners(before[..j])
      && (forall i :: 0 <= i < j ==> before[i].value <= tickCount)
      && (j < |before| ==> tickCount < before[j].value)
    }

    /** The unblocking loop of xTaskIncrementTick. */
    method UnblockDue() returns (ghost j: nat)
      requires round > 0
      modifies this`delayed, this`ready, this`nextUnblock
      ensures UnblockedFirst(old(delayed), old(ready), j)
      ensures nextUnblock == UnblockTime(delayed, round)
    {
      j := 0;
      assert Owners(delayed[..0]) == [];
      while true
        invariant j <= |old(delayed)| && delayed == old(delayed)[j..]
        invariant forall i :: 0 <= i < j ==> old(delayed)[i].value <= tickCount
        invariant ready == old(ready) + Owners(old(delayed)[..j])
        decreases |delayed|
      {
        if delayed == [] {
          nextUnblock := round - 1;
          break;
        }
        if tickCount < delayed[0].value {
          nextUnblock := delayed[0].value;
          break;
        }
        assert Owners(old(delayed)[..j + 1]) == Owners(old(delayed)[..j]) + [delayed[0].owner];
        ready := ready + [delayed[0].owner];
        delayed := delayed[1..];
        j := j + 1;
      }
    }

    /** The clock has ticked: the lists show it when exactly the items due have
        been taken off. */
    ghost method AdoptTicked(c: Clock, d: Clock, n: nat, before: seq<Entry<Task>>, j: nat)
      requires Consistent(c, d.now, round, base, overflows, tickCount, n, before, overflow)
      requires j <= |before| && delayed == before[j..] && nextUnblock == UnblockTime(delayed, round)
      requires d.sleepers == Merged(before[j..], overflow, base, round) && Orderly(d) && NoneNow(d)
      modifies this`clock
      ensures Valid() && clock == d
    {
      TickConsistent(c, d, round, base, overflows, tickCount, n, before, overflow, j);
      clock := d;
    }

    /** The same when nothing was due. */
    ghost method AdoptIdle(c: Clock, d: Clock)
      requires Consistent(c, d.now, round, base, overflows, tickCount, nextUnblock, delayed, overflow)
      requires d.sleepers == c.sleepers && Orderly(d) && NoneNow(d)
      modifies this`clock
      ensures Valid() && clock == d
    {
      SameSleepers(c, d, round, base, overflows, tickCount, nextUnblock, delayed, overflow);
      clock := d;
    }

    /** The second half of xTaskIncrementTick. */
    method ReadyDue(ghost c: Clock, ghost r: seq<Task>)
      requires Advanced() && clock == c && ready == r
      modifies this`nextUnblock, this`delayed, this`ready, this`clock
      ensures Valid() && Ticked(c, r, clock, ready)
    {
      if tickCount >= nextUnblock {
        ghost var before, n := delayed, nextUnblock;
        ghost var j := UnblockDue();
        ghost var d := TickOfDue(c, r, round, base, overflows, tickCount, n, before, overflow, j);
        AdoptTicked(c, d, n, before, j);
      } else {
        ghost var d := TickOfNone(c, r, round, base, overflows, tickCount, nextUnblock, delayed, overflow);
        AdoptIdle(c, d);
      }
    }

    /** What xTaskIncrementTick does while the scheduler runs. */
    method RunTick(ghost c: Clock, ghost r: seq<Task>)
      requires Valid() && clock == c && ready == r
      modifies this`tickCount, this`overflows, this`nextUnblock, this`delayed, this`overflow, this`ready, this`clock,
               this`base
      ensures Valid() && Ticked(c, r, clock, ready)
    {
      AdvanceCounter();
      ReadyDue(c, r);
    }

    /** xTaskIncrementTick. */
    method IncrementTick(ghost c: Clock, ghost r: seq<Task>)
      requires Valid() && clock == c && ready == r
      modifies this`tickCount, this`overflows, this`nextUnblock, this`delayed, this`overflow, this`ready,
               this`pendedTicks, this`clock, this`base
      ensures Valid()
      ensures suspended > 0 ==> clock == c && unchanged(`ready) && pendedTicks == old(pendedTicks) + 1
      ensures suspended == 0 ==> Ticked(c, r, clock, ready) && unchanged(`pendedTicks)
    {
      if suspended == 0 {
        RunTick(c, r);
      } else {
        pendedTicks := pendedTicks + 1;
      }
    }

    /** A tick interrupt. */
    method TickInterrupt()
      requires Valid() && Counted()
      modifies this
      ensures Valid() && Counted() && interrupts == old(interrupts) + 1
      ensures suspended == old(suspended) && pendingReady == old(pendingReady)
      ensures clock == if suspended == 0 then Tick(old(clock)) else old(clock)
      ensures View() == AfterCall(old(View()), Interrupt)
      ensures if suspended == 0 then Ticked(old(clock), old(ready), clock, ready) else unchanged(`ready)
      ensures unchanged(`blockedForever)
    {
      interrupts := interrupts + 1;
      IncrementTick(clock, ready);
    }

    /** vTaskSuspendAll. */
    method SuspendAll()
      requires Valid() && Counted()
      modifies this`suspended
      ensures Valid() && Counted() && View() == AfterCall(old(View()), Call.SuspendAll)
    {
      suspended := suspended + 1;
    }

    /** uxListRemove on the task's state list item, then the ready list. */
    method Unblock(t: Task)
      requires Valid()
      modifies this`delayed, this`overflow, this`blockedForever, this`ready, this`clock
      ensures Valid() && clock == Wake(old(clock), t) && ready == old(ready) + [t]
      ensures TimesOf(delayed, t) == [] && TimesOf(overflow, t) == []
      ensures blockedForever == WithoutTask(old(blockedForever), t)
    {
      WakeConsistent(clock, round, base, overflows, tickCount, nextUnblock, delayed, overflow, t);
      TimesOfWithout(delayed, t, t);
      TimesOfWithout(overflow, t, t);
      delayed := Without(delayed, t);
      overflow := Without(overflow, t);
      blockedForever := WithoutTask(blockedForever, t);
      ready := ready + [t];
      clock := Wake(clock, t);
    }

    /** xTaskRemoveFromEventList: the task is readied, or noted while the
        scheduler is suspended. */
    method RemoveFromEventList(t: Task)
      requires Valid() && Counted()
      modifies this`delayed, this`overflow, this`blockedForever, this`ready, this`clock, this`pendingReady
      ensures Valid() && Counted() && View() == AfterCall(old(View()), Event(t))
      ensures ready == if suspended == 0 then old(ready) + [t] else old(ready)
    {
      if suspended == 0 {
        Unblock(t);
      } else {
        pendingReady := pendingReady + [t];
      }
    }

    /** vTaskRemoveFromUnorderedEventList, and the middle of xTaskAbortDelay: the
        task is readied although the scheduler is suspended. */
    method ReadyAtOnce(t: Task)
      requires Valid() && Counted()
      modifies this`delayed, this`overflow, this`blockedForever, this`ready, this`clock, this`pendingReady
      ensures Valid() && Counted() && View() == AfterCall(old(View()), Ready(t)) && ready == old(ready) + [t]
    {
      pendingReady := WithoutTask(pendingReady, t);
      Unblock(t);
    }

    /** One turn of the loop that replays pended ticks. */
    method ReplayTick(ghost trace: seq<Clock>, ghost i: nat)
      requires Valid() && suspended == 0 && IsTrace(trace) && i + 1 < |trace| && clock == trace[i]
      modifies this`tickCount, this`overflows, this`nextUnblock, this`delayed, this`overflow, this`ready,
               this`pendedTicks, this`clock, this`base
      ensures Valid() && clock == trace[i + 1] && Ticked(old(clock), old(ready), clock, ready)
      ensures unchanged(`pendedTicks)
    {
      ghost var c, r := clock, ready;
      IncrementTick(clock, ready);
      NextOfTrace(trace, i, c, r, clock, ready);
    }

    /** xTaskResumeAll.  At the outermost level the ready lists get the tasks
        whose events came meanwhile, in that order, and then those that the
        replayed ticks wake, tick by tick. */
    method ResumeAll()
      requires Valid() && Counted() && suspended > 0
      modifies this
      ensures Valid() && Counted() && View() == AfterCall(old(View()), Call.ResumeAll) && interrupts == old(interrupts)
      ensures suspended > 0 ==> unchanged(`ready, `blockedForever)
      ensures suspended == 0 ==> blockedForever == WithoutTasks(old(blockedForever), old(pendingReady))
      ensures suspended == 0 ==> Readied(old(clock), old(ready) + old(pendingReady), clock, ready)
    {
      suspended := suspended - 1;
      if suspended == 0 {
        CatchUp();
      }
    }

    /** Tasks readied meanwhile first, then the ticks held back. */
    method CatchUp()
      requires Valid() && suspended == 0
      modifies this`tickCount, this`overflows, this`nextUnblock, this`delayed, this`overflow, this`blockedForever,
               this`ready, this`pendedTicks, this`pendingReady, this`clock, this`base
      ensures Valid() && clock == Ticks(WakeAll(old(clock), old(pendingReady)), old(pendedTicks))
      ensures pendedTicks == 0 && pendingReady == [] && clock.now == old(clock.now) + old(pendedTicks)
      ensures Readied(old(clock), old(ready) + old(pendingReady), clock, ready)
      ensures blockedForever == WithoutTasks(old(blockedForever), old(pendingReady))
    {
      MovePendingReady();
      ReplayTicks();
    }

    method MovePendingReady()
      requires Valid()
      modifies this`delayed, this`overflow, this`blockedForever, this`ready, this`clock, this`pendingReady,
               this`nextUnblock
      ensures Valid() && clock == WakeAll(old(clock), old(pendingReady)) && pendingReady == []
      ensures clock.now == old(clock.now) && clock.readied == old(clock.readied)
      ensures ready == old(ready) + old(pendingReady)
      ensures blockedForever == WithoutTasks(old(blockedForever), old(pendingReady))
    {
      var any := pendingReady != [];
      while pendingReady != []
        invariant Valid() && WakeAll(clock, pendingReady) == WakeAll(old(clock), old(pendingReady))
        invariant clock.now == old(clock.now) && clock.readied == old(clock.readied)
        invariant ready + pendingReady == old(ready) + old(pendingReady)
        invariant WithoutTasks(blockedForever, pendingReady) == WithoutTasks(old(blockedForever), old(pendingReady))
        decreases |pendingReady|
      {
        var t := pendingReady[0];
        FirstMoved(ready, pendingReady);
        pendingReady := pendingReady[1..];
        Unblock(t);
      }
      if any {
        UnblockTimeConsistent(clock, round, base, overflows, tickCount, nextUnblock, delayed, overflow);
        ResetNextUnblockTime();
      }
    }

    method ReplayTicks()
      requires Valid() && suspended == 0
      modifies this`tickCount, this`overflows, this`nextUnblock, this`delayed, this`overflow, this`ready,
               this`pendedTicks, this`clock, this`base
      ensures Valid() && clock == Ticks(old(clock), old(pendedTicks)) && pendedTicks == 0
      ensures clock.now == old(clock.now) + old(pendedTicks) && Readied(old(clock), old(ready), clock, ready)
    {
      ghost var trace := TicksTrace(clock, pendedTicks);
      TicksNow(clock, pendedTicks);
      ReplayAlong(trace);
    }

    /** Its loop. */
    method ReplayAlong(ghost trace: seq<Clock>)
      requires Valid() && suspended == 0 && IsTrace(trace) && |trace| == pendedTicks + 1 && clock == trace[0]
      modifies this`tickCount, this`overflows, this`nextUnblock, this`delayed, this`overflow, this`ready,
               this`pendedTicks, this`clock, this`base
      ensures Valid() && clock == trace[|trace| - 1] && pendedTicks == 0
      ensures Readied(old(clock), old(ready), clock, ready)
    {
      var counts := pendedTicks;
      ghost var c, r := clock, ready;
      NothingReadied(c, r);
      while counts > 0
        invariant Valid() && 0 <= counts < |trace| && clock == trace[|trace| - 1 - counts]
        invariant Readied(c, r, clock, ready)
      {
        ghost var d, r' := clock, ready;
        ReplayTick(trace, |trace| - 1 - counts);
        OneTickReadied(c, r, d, r', clock, ready);
        counts := counts - 1;
      }
      pendedTicks := 0;
    }
  }

  lemma FirstMoved(ready: seq<Task>, pending: seq<Task>)
    requires pending != []
    ensures (ready + [pending[0]]) + pending[1..] == ready + pending
  {
  }

  lemma StampedOwners(delayed: seq<Entry<Task>>, overflow: seq<Entry<Task>>, base: nat, round: nat, j: nat, time: nat)
    requires j <= |delayed|
    ensures Owners(Stamped(Merged(delayed, overflow, base, round)[..j], time)) == Owners(delayed[..j])
  {
  }

  lemma MergedHead(delayed: seq<Entry<Task>>, overflow: seq<Entry<Task>>, base: nat, round: nat)
    requires delayed != []
    ensures Merged(delayed, overflow, base, round) != []
    ensures Merged(delayed, overflow, base, round)[0].value == base + delayed[0].value
  {
  }

  lemma InsertBounded(s: seq<Entry<Task>>, e: Entry<Task>, round: nat)
    requires e.value < round && forall i :: 0 <= i < |s| ==> s[i].value < round
    ensures var r := InsertSorted(s, e); forall i :: 0 <= i < |r| ==> r[i].value < round
    ensures InsertSorted(s, e)[0].value == if s != [] && s[0].value <= e.value then s[0].value else e.value
  {
    var k := InsertSortedPlace(s, e);
  }
}
