/** How an inherited priority ends: a holder of one mutex runs no higher than its
    own priority and the tasks that are trying to take the mutex, and exactly
    when it does not.
 */
module Disinheritance {
  import opened ListModel
  import opened Inheritance
  import opened InheritanceLimits

  // ---------- What a block remembers, and what its time-out does with it

  /** The result of xTaskPriorityInherit says whether the holder owes a priority
      to the task, now or from an earlier block. */
  lemma OccurredExactly(ts: Tasks, holder: Task, current: Task)
    requires AtLeastBase(ts)
    ensures InheritOccurred(ts, holder, current) <==> At(ts.base, holder) < At(ts.priority, current)
  {
    assert At(ts.base, holder) <= At(ts.priority, holder);
  }

  /** A block remembers whether the task is above the holder's own priority. */
  lemma BlockRemembers(s: System, t: Task, m: Mutex, top: nat)
    requires AtLeastBase(s.tasks) && Enabled(s, Block(t, m))
    ensures var s' := Apply(s, Block(t, m), top);
            && t in s'.attempts && s'.attempts.Keys == s.attempts.Keys + {t}
            && s'.attempts[t] == Attempt(m, At(s.tasks.base, s.holder[m]) < At(s.tasks.priority, t), true)
  {
    OccurredExactly(s.tasks, s.holder[m], t);
  }

  /** The time-out of a block that was above the holder's own priority leaves a
      holder of one mutex at the higher of its own priority and its waiters. */
  lemma TimeOutLowers(s: System, t: Task, top: nat)
    requires ListsOk(s, top) && Enabled(s, GiveUp(t)) && s.attempts[t].inherited
    requires var m := s.attempts[t].mutex; m in s.holder && At(s.tasks.held, s.holder[m]) == 1
    ensures var s', m := Apply(s, GiveUp(t), top), s.attempts[t].mutex;
            var h := s.holder[m];
            && At(s.tasks.base, h) <= At(s'.tasks.priority, h)
            && (forall w :: Waits(s.WaitingFor(m), w) ==> At(s.tasks.priority, w) <= At(s'.tasks.priority, h))
            && (|| At(s'.tasks.priority, h) == At(s.tasks.base, h)
                || exists w :: Waits(s.WaitingFor(m), w) && At(s.tasks.priority, w) == At(s'.tasks.priority, h))
  {
    var m := s.attempts[t].mutex;
    var q := s.WaitingFor(m);
    GiveUpParts(s, t, top);
    FirstIsHighest(s, m, top, HighestWaiting(q, top));
    if q != [] {
      FirstWaiter(s, m, top);
    }
  }

  lemma FirstWaiter(s: System, m: Mutex, top: nat)
    requires ListsOk(s, top) && s.WaitingFor(m) != []
    ensures var w := s.WaitingFor(m)[0].owner;
            && Waits(s.WaitingFor(m), w) && At(s.tasks.priority, w) == HighestWaiting(s.WaitingFor(m), top)
            && w in s.attempts && s.attempts[w].blocked && s.attempts[w].mutex == m
  {
    var q := s.WaitingFor(m);
    assert ListOk(q, s.tasks, s.attempts, m, top);
    assert WaiterOk(q[0], s.tasks, s.attempts, m, top);
  }

  // ---------- Over runs

  /** In a call of xQueueSemaphoreTake on this mutex that has blocked: waiting,
      woken or timed out. */
  predicate Attempting(s: System, m: Mutex, w: Task) {
    w in s.attempts && s.attempts[w].mutex == m
  }

  /** Until the call is over, a task does nothing else. */
  predicate InCall(s: System, step: Step) {
    match step
    case Take(t, m) => t in s.attempts ==> s.attempts[t].mutex == m
    case Block(t, m) => t in s.attempts ==> s.attempts[t].mutex == m
    case Give(t, _) => t !in s.attempts
    case _ => true
  }

  /** A task above its own priority owes it to another that is trying to take the
      mutex. */
  ghost predicate Owed(s: System, m: Mutex, h: Task) {
    || At(s.tasks.priority, h) <= At(s.tasks.base, h)
    || exists w :: Attempting(s, m, w) && At(s.tasks.priority, h) <= At(s.tasks.priority, w)
  }

  ghost predicate NoneTooHigh(s: System) {
    forall m :: m in s.holder && At(s.tasks.held, s.holder[m]) == 1 ==> Owed(s, m, s.holder[m])
  }

  /** Once nobody tries to take the mutex, its holder is back at its own
      priority. */
  lemma BackAtBase(s: System, m: Mutex)
    requires NoneTooHigh(s) && AtLeastBase(s.tasks) && m in s.holder && At(s.tasks.held, s.holder[m]) == 1
    requires forall w :: !Attempting(s, m, w)
    ensures At(s.tasks.priority, s.holder[m]) == At(s.tasks.base, s.holder[m])
  {
    assert Owed(s, m, s.holder[m]);
  }

  /** A give of one of two mutexes leaves no priority owed for the one given, and
      a time-out that does not lower the holder leaves none owed to it alone. */
  ghost predicate Settles(s: System, step: Step)
    requires Enabled(s, step)
  {
    match step
    case Give(t, m) =>
      At(s.tasks.held, t) == 2 ==> forall m' :: m' in s.holder && m' != m && s.holder[m'] == t ==> Owed(s, m', t)
    case GiveUp(t) =>
      var m, inherited := s.attempts[t].mutex, s.attempts[t].inherited;
      !inherited && m in s.holder && At(s.tasks.held, s.holder[m]) == 1 ==> Owed(WithoutCall(s, t), m, s.holder[m])
    case _ => true
  }

  function WithoutCall(s: System, t: Task): System {
    s.(attempts := s.attempts - {t})
  }

  /** Whoever is in a call holds no mutex. */
  ghost predicate EmptyHanded(s: System) {
    forall t :: t in s.attempts ==> At(s.tasks.held, t) == 0
  }

  ghost predicate Ready(s: System, step: Step, top: nat) {
    Invariant(s, top) && EmptyHanded(s) && Enabled(s, step) && BlocksEmptyHanded(s, step) && InCall(s, step)
  }

  /** What an owed priority depends on. */
  lemma OwedLater(s: System, s': System, m: Mutex, h: Task)
    requires Owed(s, m, h) && At(s'.tasks.priority, h) <= At(s.tasks.priority, h) && s'.tasks.base == s.tasks.base
    requires forall w :: Attempting(s, m, w) ==>
               Attempting(s', m, w) && At(s.tasks.priority, w) <= At(s'.tasks.priority, w)
    ensures Owed(s', m, h)
  {
    if At(s.tasks.priority, h) > At(s.tasks.base, h) {
      var w :| Attempting(s, m, w) && At(s.tasks.priority, h) <= At(s.tasks.priority, w);
      assert Attempting(s', m, w);
    }
  }

  lemma TakeSettles(s: System, t: Task, m: Mutex, top: nat)
    requires NoneTooHigh(s) && Ready(s, Take(t, m), top)
    ensures NoneTooHigh(Apply(s, Take(t, m), top))
  {
    var s' := Apply(s, Take(t, m), top);
    forall m' | m' in s'.holder && At(s'.tasks.held, s'.holder[m']) == 1
      ensures Owed(s', m', s'.holder[m'])
    {
      if m' != m {
        HolderHolds(s, m');
        OwedLater(s, s', m', s.holder[m']);
      }
    }
  }

  lemma BlockSettles(s: System, t: Task, m: Mutex, top: nat)
    requires NoneTooHigh(s) && Ready(s, Block(t, m), top)
    ensures NoneTooHigh(Apply(s, Block(t, m), top))
  {
    var s', h := Apply(s, Block(t, m), top), s.holder[m];
    BlockTasks(s, t, m, top);
    BlockAttempts(s, t, m, top);
    HolderHolds(s, m);
    forall m' | m' in s'.holder && At(s'.tasks.held, s'.holder[m']) == 1
      ensures Owed(s', m', s'.holder[m'])
    {
      if At(s.tasks.priority, h) < At(s.tasks.priority, t) && s.holder[m'] == h {
        SoleMutex(s, m, m');
        assert Attempting(s', m, t);
      } else {
        if s.holder[m'] == h { SoleMutex(s, m, m'); }
        OwedLater(s, s', m', s.holder[m']);
      }
    }
  }

  lemma BlockAttempts(s: System, t: Task, m: Mutex, top: nat)
    requires Enabled(s, Block(t, m))
    ensures var s' := Apply(s, Block(t, m), top);
            forall m', w :: Attempting(s', m', w) <==> if w == t then m' == m else Attempting(s, m', w)
  {
  }

  lemma SoleMutex(s: System, m: Mutex, m': Mutex)
    requires Settled(s) && m in s.holder && m' in s.holder && s.holder[m'] == s.holder[m]
    requires At(s.tasks.held, s.holder[m]) == 1
    ensures m' == m
  {
    var h := s.holder[m];
    assert At(s.tasks.held, h) == |HeldBy(s.holder, h)|;
    OnlyOne(s.holder, h, m, m');
  }

  lemma GiveAttempts(s: System, t: Task, m: Mutex, top: nat)
    requires Enabled(s, Give(t, m))
    ensures var s' := Apply(s, Give(t, m), top);
            forall m', w :: Attempting(s', m', w) <==> Attempting(s, m', w)
  {
  }

  lemma GiveSettles(s: System, t: Task, m: Mutex, top: nat)
    requires NoneTooHigh(s) && Ready(s, Give(t, m), top)
    ensures NoneTooHigh(Apply(s, Give(t, m), top)) <==> Settles(s, Give(t, m))
  {
    var s' := Apply(s, Give(t, m), top);
    GiveTasks(s, t, m, top);
    GiveAttempts(s, t, m, top);
    forall m' | m' in s'.holder && At(s'.tasks.held, s'.holder[m']) == 1
      ensures Owed(s', m', s'.holder[m']) <==> Owed(s, m', s.holder[m'])
      ensures s.holder[m'] != t ==> Owed(s, m', s.holder[m'])
      ensures s.holder[m'] == t ==> At(s.tasks.held, t) == 2
    {
      SameOwed(s, s', m', s.holder[m'], t);
    }
  }

  /** Another priority for a task that is in no call makes no difference to what
      others owe. */
  lemma SameOwed(s: System, s': System, m: Mutex, h: Task, t: Task)
    requires t !in s.attempts && At(s'.tasks.priority, h) == At(s.tasks.priority, h) && s'.tasks.base == s.tasks.base
    requires forall u :: u != t ==> At(s'.tasks.priority, u) == At(s.tasks.priority, u)
    requires forall w :: Attempting(s', m, w) <==> Attempting(s, m, w)
    ensures Owed(s', m, h) <==> Owed(s, m, h)
  {
    if Owed(s, m, h) {
      OwedLater(s, s', m, h);
    }
    if Owed(s', m, h) {
      OwedLater(s', s, m, h);
    }
  }

  lemma ExpireSettles(s: System, m: Mutex, k: nat)
    requires NoneTooHigh(s) && k < |s.WaitingFor(m)|
    ensures NoneTooHigh(Removed(s, m, k))
  {
    var s' := Removed(s, m, k);
    forall m' | m' in s'.holder && At(s'.tasks.held, s'.holder[m']) == 1
      ensures Owed(s', m', s'.holder[m'])
    {
      OwedLater(s, s', m', s.holder[m']);
    }
  }

  lemma GiveUpAttempts(s: System, t: Task, top: nat)
    requires Enabled(s, GiveUp(t))
    ensures Apply(s, GiveUp(t), top).attempts == s.attempts - {t}
    ensures Apply(s, GiveUp(t), top).tasks.base == s.tasks.base && Apply(s, GiveUp(t), top).tasks.held == s.tasks.held
  {
  }

  /** The holder that a time-out lowers owes what is left to its first waiter. */
  lemma LoweredOwes(s: System, t: Task, top: nat)
    requires Ready(s, GiveUp(t), top) && s.attempts[t].inherited
    requires var m := s.attempts[t].mutex; m in s.holder && At(s.tasks.held, s.holder[m]) == 1
    ensures var m := s.attempts[t].mutex; Owed(Apply(s, GiveUp(t), top), m, s.holder[m])
  {
    var s', m := Apply(s, GiveUp(t), top), s.attempts[t].mutex;
    GiveUpParts(s, t, top);
    GiveUpAttempts(s, t, top);
    if s.WaitingFor(m) != [] {
      FirstWaiter(s, m, top);
      assert Attempting(s', m, s.WaitingFor(m)[0].owner);
    }
  }

  lemma GiveUpSettles(s: System, t: Task, top: nat)
    requires NoneTooHigh(s) && Ready(s, GiveUp(t), top)
    ensures NoneTooHigh(Apply(s, GiveUp(t), top)) <==> Settles(s, GiveUp(t))
  {
    var s', m := Apply(s, GiveUp(t), top), s.attempts[t].mutex;
    GiveUpParts(s, t, top);
    GiveUpAttempts(s, t, top);
    if m in s.holder && At(s.tasks.held, s.holder[m]) == 1 {
      if s.attempts[t].inherited {
        LoweredOwes(s, t, top);
      } else {
        SameOwedWithout(s, s', t, m, s.holder[m]);
      }
    }
    forall m' | m' in s'.holder && At(s'.tasks.held, s'.holder[m']) == 1 && m' != m
      ensures Owed(s', m', s'.holder[m'])
    {
      OthersOweOn(s, t, m', top);
    }
  }

  lemma OthersOweOn(s: System, t: Task, m: Mutex, top: nat)
    requires NoneTooHigh(s) && Ready(s, GiveUp(t), top) && m != s.attempts[t].mutex
    requires m in s.holder && At(s.tasks.held, s.holder[m]) == 1
    ensures Owed(Apply(s, GiveUp(t), top), m, s.holder[m])
  {
    var m' := s.attempts[t].mutex;
    GiveUpParts(s, t, top);
    GiveUpAttempts(s, t, top);
    if m' in s.holder && s.holder[m'] == s.holder[m] {
      SoleMutex(s, m, m');
    }
    OwedLater(s, Apply(s, GiveUp(t), top), m, s.holder[m]);
  }

  lemma SameOwedWithout(s: System, s': System, t: Task, m: Mutex, h: Task)
    requires s'.attempts == s.attempts - {t} && s'.tasks.base == s.tasks.base
    requires s'.tasks.priority == s.tasks.priority
    ensures Owed(s', m, h) <==> Owed(WithoutCall(s, t), m, h)
  {
    if Owed(s', m, h) {
      OwedLater(s', WithoutCall(s, t), m, h);
    }
    if Owed(WithoutCall(s, t), m, h) {
      OwedLater(WithoutCall(s, t), s', m, h);
    }
  }

  /** From a state in which nobody runs too high, a step leads to another if and
      only if it settles what is owed. */
  lemma StepSettlesExactly(s: System, step: Step, top: nat)
    requires NoneTooHigh(s) && Ready(s, step, top)
    ensures NoneTooHigh(Apply(s, step, top)) <==> Settles(s, step)
  {
    match step
    case Take(t, m) => TakeSettles(s, t, m, top);
    case Block(t, m) => BlockSettles(s, t, m, top);
    case Give(t, m) => GiveSettles(s, t, m, top);
    case Expire(m, k) => ExpireSettles(s, m, k);
    case GiveUp(t) => GiveUpSettles(s, t, top);
  }

  lemma StepEmptyHanded(s: System, step: Step, top: nat)
    requires Ready(s, step, top)
    ensures EmptyHanded(Apply(s, step, top))
  {
    match step
    case Take(t, m) =>
    case Block(t, m) =>
      BlockTasks(s, t, m, top);
      BlockAttempts(s, t, m, top);
    case Give(t, m) => GiveTasks(s, t, m, top);
    case Expire(m, k) =>
    case GiveUp(t) => GiveUpAttempts(s, t, top);
  }

  /** Every task is inside at most one call at a time. */
  predicate OneCallAtATime(s: System, run: seq<Step>, top: nat)
    requires LegalRun(s, run, top)
    decreases |run|
  {
    run == [] || (InCall(s, run[0]) && OneCallAtATime(Apply(s, run[0], top), run[1..], top))
  }

  ghost predicate NeverTooHigh(s: System, run: seq<Step>, top: nat)
    requires LegalRun(s, run, top)
    decreases |run|
  {
    NoneTooHigh(s) && (run == [] || NeverTooHigh(Apply(s, run[0], top), run[1..], top))
  }

  ghost predicate AllSettle(s: System, run: seq<Step>, top: nat)
    requires LegalRun(s, run, top)
    decreases |run|
  {
    run == [] || (Settles(s, run[0]) && AllSettle(Apply(s, run[0], top), run[1..], top))
  }

  lemma {:induction false} SettledFrom(s: System, run: seq<Step>, top: nat)
    requires NoneTooHigh(s) && Invariant(s, top) && EmptyHanded(s)
    requires LegalRun(s, run, top) && NoNestedBlocking(s, run, top) && OneCallAtATime(s, run, top)
    ensures NeverTooHigh(s, run, top) <==> AllSettle(s, run, top)
    decreases |run|
  {
    if run != [] {
      var s' := Apply(s, run[0], top);
      StepSettlesExactly(s, run[0], top);
      if Settles(s, run[0]) {
        StepKeepsInvariant(s, run[0], top);
        StepEmptyHanded(s, run[0], top);
        SettledFrom(s', run[1..], top);
      } else {
        TooHighNow(s', run[1..], top);
      }
    }
  }

  lemma TooHighNow(s: System, run: seq<Step>, top: nat)
    requires LegalRun(s, run, top) && !NoneTooHigh(s)
    ensures !NeverTooHigh(s, run, top)
  {
  }

  /** In every run in which nobody blocks while holding a mutex, a holder of one
      mutex runs throughout no higher than its own priority and the tasks that try
      to take the mutex, if and only if each give and each time-out settles what
      is owed. */
  lemma LoweredExactly(s: System, run: seq<Step>, top: nat)
    requires Start(s, top) && LegalRun(s, run, top) && NoNestedBlocking(s, run, top) && OneCallAtATime(s, run, top)
    ensures NeverTooHigh(s, run, top) <==> AllSettle(s, run, top)
  {
    StartInvariant(s, top);
    SettledFrom(s, run, top);
  }

  // ---------- Runs that show it

  lemma {:induction false} CallsExtend(s: System, run: seq<Step>, mid: System, step: Step, top: nat)
    requires Reaches(s, run, top, mid) && LegalRun(s, run + [step], top)
    ensures OneCallAtATime(s, run + [step], top) <==> OneCallAtATime(s, run, top) && InCall(mid, step)
    decreases |run|
  {
    var all := run + [step];
    if run == [] {
      assert all[1..] == [];
    } else {
      assert all[1..] == run[1..] + [step];
      CallsExtend(Apply(s, run[0], top), run[1..], mid, step, top);
    }
  }

  /** A run of the kind above. */
  ghost predicate Gets(s: System, run: seq<Step>, top: nat, end: System) {
    Reaches(s, run, top, end) && NoNestedBlocking(s, run, top) && OneCallAtATime(s, run, top)
  }

  ghost predicate Goes(s: System, step: Step, top: nat, s': System) {
    Enabled(s, step) && s' == Apply(s, step, top) && BlocksEmptyHanded(s, step) && InCall(s, step)
  }

  lemma On(s: System, run: seq<Step>, mid: System, step: Step, end: System, top: nat) returns (run': seq<Step>)
    requires Gets(s, run, top, mid) && Goes(mid, step, top, end)
    ensures Gets(s, run', top, end)
  {
    run' := run + [step];
    RunExtends(s, run, mid, step, end, top);
    NestingExtends(s, run, mid, step, top);
    CallsExtend(s, run, mid, step, top);
  }

  /** A low task holds mutexes 0 and 1. */
  lemma TwoHeld(s: System, top: nat) returns (run: seq<Step>, end: System)
    requires s == Rested(map[0 := 1, 2 := 3])
    ensures Gets(s, run, top, end) && end.tasks == Tasks(map[0 := 1, 2 := 3], map[0 := 1, 2 := 3], map[0 := 2])
    ensures end.holder == map[0 := 0, 1 := 0] && end.attempts == map[] && end.waiting == map[]
  {
    var s1 := Apply(s, Take(0, 0), top);
    assert s1.attempts == map[];
    end := Apply(s1, Take(0, 1), top);
    assert end.attempts == map[];
    run := On(s, [], s, Take(0, 0), s1, top);
    run := On(s, run, s1, Take(0, 1), end, top);
  }

  lemma HighBlocksOnFirst(s: System, top: nat) returns (s': System)
    requires top > 3 && s.tasks == Tasks(map[0 := 1, 2 := 3], map[0 := 1, 2 := 3], map[0 := 2])
    requires s.holder == map[0 := 0, 1 := 0] && s.attempts == map[] && s.waiting == map[]
    ensures Goes(s, Block(2, 0), top, s')
    ensures s'.tasks == Tasks(map[0 := 3, 2 := 3], map[0 := 1, 2 := 3], map[0 := 2])
    ensures s'.holder == s.holder && s'.attempts.Keys == {2} && s'.attempts[2].mutex == 0
  {
    s' := Apply(s, Block(2, 0), top);
    BlockTasks(s, 2, 0, top);
    assert s'.tasks.priority == map[0 := 3, 2 := 3];
  }

  lemma FirstGiven(s: System, top: nat) returns (s': System)
    requires s.tasks == Tasks(map[0 := 3, 2 := 3], map[0 := 1, 2 := 3], map[0 := 2])
    requires s.holder == map[0 := 0, 1 := 0] && s.attempts.Keys == {2} && s.attempts[2].mutex == 0
    ensures Goes(s, Give(0, 0), top, s')
    ensures s'.tasks == Tasks(map[0 := 3, 2 := 3], map[0 := 1, 2 := 3], map[0 := 1]) && s'.holder == map[1 := 0]
    ensures forall w :: !Attempting(s', 1, w)
  {
    assert !s.Blocked(0);
    s' := Apply(s, Give(0, 0), top);
    GiveTasks(s, 0, 0, top);
    GiveAttempts(s, 0, 0, top);
    assert s.tasks.held[0 := 1] == map[0 := 1];
    assert s.holder - {0} == map[1 := 0];
  }

  /** A low task gives the mutex back for which it inherited a priority, and keeps
      the priority for another that nobody wants. */
  lemma KeptWithSecondMutex(top: nat) returns (s: System, run: seq<Step>)
    requires top > 3
    ensures Start(s, top) && LegalRun(s, run, top) && NoNestedBlocking(s, run, top) && OneCallAtATime(s, run, top)
    ensures var f := Final(s, run, top);
            && f.holder == map[1 := 0] && At(f.tasks.held, 0) == 1 && (forall w :: !Attempting(f, 1, w))
            && At(f.tasks.base, 0) == 1 && At(f.tasks.priority, 0) == 3
  {
    var s2;
    s := Rested(map[0 := 1, 2 := 3]);
    run, s2 := TwoHeld(s, top);
    var s3 := HighBlocksOnFirst(s2, top);
    var s4 := FirstGiven(s3, top);
    run := On(s, run, s2, Block(2, 0), s3, top);
    run := On(s, run, s3, Give(0, 0), s4, top);
  }

  /** The parts of a state with mutex 0 only, and tasks with own priorities 1, 2,
      2 and 3. */
  ghost predicate Looks(s: System, priority: Table, held: Table, holder: map<Mutex, Task>, q: seq<Entry<Task>>,
                        attempts: map<Task, Attempt>) {
    && s.tasks == Tasks(priority, map[0 := 1, 1 := 2, 2 := 2, 3 := 3], held)
    && s.holder == holder && s.WaitingFor(0) == q && s.waiting.Keys <= {0} && s.attempts == attempts
  }

  /** The second task takes the mutex, and a task of the same priority blocks. */
  lemma EqualBlocks(s: System, top: nat) returns (run: seq<Step>, end: System)
    requires top > 3 && s == Rested(map[0 := 1, 1 := 2, 2 := 2, 3 := 3])
    ensures Gets(s, run, top, end)
    ensures Looks(end, s.tasks.base, map[1 := 1], map[0 := 1], [Entry(top - 2, 2)], map[2 := Attempt(0, false, true)])
  {
    var s1 := Apply(s, Take(1, 0), top);
    assert s1.attempts == map[];
    end := Apply(s1, Block(2, 0), top);
    assert end.WaitingFor(0) == [Entry(top - 2, 2)];
    run := On(s, [], s, Take(1, 0), s1, top);
    run := On(s, run, s1, Block(2, 0), end, top);
  }

  lemma InFront(top: nat)
    requires top > 3
    ensures InsertSorted([Entry(top - 2, 2)], Entry(top - 3, 3)) == [Entry(top - 3, 3), Entry(top - 2, 2)]
  {
  }

  /** The high task blocks in front of it, on a holder of the given priority. */
  lemma HighInFront(s: System, h: Task, held: Table, attempts: map<Task, Attempt>, top: nat) returns (s': System)
    requires top > 3 && h < 2 && At(held, 3) == 0
    requires Looks(s, map[0 := 1, 1 := 2, 2 := 2, 3 := 3], held, map[0 := h], [Entry(top - 2, 2)], attempts)
    requires 3 in attempts ==> attempts[3].mutex == 0 && !attempts[3].blocked
    ensures Goes(s, Block(3, 0), top, s')
    ensures Looks(s', map[0 := 1, 1 := 2, 2 := 2, 3 := 3][h := 3], held, map[0 := h],
                  [Entry(top - 3, 3), Entry(top - 2, 2)], attempts[3 := Attempt(0, true, true)])
  {
    s' := Apply(s, Block(3, 0), top);
    InFront(top);
    var ts := Inherit(s.tasks, h, 3);
    RevaluedOther([Entry(top - 2, 2)], h, top - 3);
    assert WithTasks(s, ts, h, top).WaitingFor(0) == [Entry(top - 2, 2)];
  }

  lemma RevaluedOther(q: seq<Entry<Task>>, t: Task, value: nat)
    requires forall i :: 0 <= i < |q| ==> q[i].owner != t
    ensures Revalued(q, t, value) == q
  {
  }

  /** The holder gives the mutex to the high task. */
  lemma SecondGives(s: System, top: nat) returns (s': System)
    requires top > 3
    requires Looks(s, map[0 := 1, 1 := 2, 2 := 2, 3 := 3][1 := 3], map[1 := 1], map[0 := 1],
                   [Entry(top - 3, 3), Entry(top - 2, 2)],
                   map[2 := Attempt(0, false, true)][3 := Attempt(0, true, true)])
    ensures Goes(s, Give(1, 0), top, s')
    ensures Looks(s', map[0 := 1, 1 := 2, 2 := 2, 3 := 3], map[1 := 0], map[], [Entry(top - 2, 2)],
                  map[2 := Attempt(0, false, true), 3 := Attempt(0, true, false)])
  {
    s' := Apply(s, Give(1, 0), top);
    GiveTasks(s, 1, 0, top);
    RevaluedOther([Entry(top - 3, 3), Entry(top - 2, 2)], 1, top - 2);
    assert s'.tasks.priority == map[0 := 1, 1 := 2, 2 := 2, 3 := 3];
    assert s'.WaitingFor(0) == [Entry(top - 2, 2)];
    assert s'.attempts == map[2 := Attempt(0, false, true), 3 := Attempt(0, true, false)];
    assert s'.holder == map[];
  }

  /** But the low task takes it. */
  lemma LowTakes(s: System, top: nat) returns (s': System)
    requires top > 3
    requires Looks(s, map[0 := 1, 1 := 2, 2 := 2, 3 := 3], map[1 := 0], map[], [Entry(top - 2, 2)],
                   map[2 := Attempt(0, false, true), 3 := Attempt(0, true, false)])
    ensures Goes(s, Take(0, 0), top, s')
    ensures Looks(s', map[0 := 1, 1 := 2, 2 := 2, 3 := 3], map[1 := 0, 0 := 1], map[0 := 0], [Entry(top - 2, 2)],
                  map[2 := Attempt(0, false, true), 3 := Attempt(0, true, false)])
  {
    s' := Apply(s, Take(0, 0), top);
    assert s'.attempts == s.attempts;
  }

  lemma HighExpires(s: System, top: nat) returns (s': System)
    requires top > 3
    requires Looks(s, map[0 := 1, 1 := 2, 2 := 2, 3 := 3][0 := 3], map[1 := 0, 0 := 1], map[0 := 0],
                   [Entry(top - 3, 3), Entry(top - 2, 2)],
                   map[2 := Attempt(0, false, true), 3 := Attempt(0, true, false)][3 := Attempt(0, true, true)])
    ensures Goes(s, Expire(0, 0), top, s')
    ensures Looks(s', map[0 := 1, 1 := 2, 2 := 2, 3 := 3][0 := 3], map[1 := 0, 0 := 1], map[0 := 0],
                  [Entry(top - 2, 2)], map[2 := Attempt(0, false, true), 3 := Attempt(0, true, false)])
  {
    s' := Apply(s, Expire(0, 0), top);
    assert s'.WaitingFor(0) == [Entry(top - 2, 2)];
    assert s'.attempts == map[2 := Attempt(0, false, true), 3 := Attempt(0, true, false)];
  }

  /** The high task gives up: the low task goes down to the other waiter. */
  lemma HighGivesUp(s: System, top: nat) returns (s': System)
    requires top > 3
    requires Looks(s, map[0 := 1, 1 := 2, 2 := 2, 3 := 3][0 := 3], map[1 := 0, 0 := 1], map[0 := 0],
                   [Entry(top - 2, 2)], map[2 := Attempt(0, false, true), 3 := Attempt(0, true, false)])
    ensures Goes(s, GiveUp(3), top, s')
    ensures Looks(s', map[0 := 2, 1 := 2, 2 := 2, 3 := 3], map[1 := 0, 0 := 1], map[0 := 0], [Entry(top - 2, 2)],
                  map[2 := Attempt(0, false, true)])
  {
    s' := Apply(s, GiveUp(3), top);
    RevaluedOther([Entry(top - 2, 2)], 0, top - 2);
    assert s'.attempts == map[2 := Attempt(0, false, true)];
    assert s'.tasks.priority == map[0 := 2, 1 := 2, 2 := 2, 3 := 3];
    assert s'.WaitingFor(0) == [Entry(top - 2, 2)];
  }

  /** So does the other, whose block had found no lower holder: nothing changes. */
  lemma EqualGivesUp(s: System, top: nat) returns (s9: System, s10: System)
    requires top > 3
    requires Looks(s, map[0 := 2, 1 := 2, 2 := 2, 3 := 3], map[1 := 0, 0 := 1], map[0 := 0], [Entry(top - 2, 2)],
                   map[2 := Attempt(0, false, true)])
    ensures Goes(s, Expire(0, 0), top, s9) && Goes(s9, GiveUp(2), top, s10)
    ensures s10.tasks == s.tasks && s10.holder == s.holder && s10.attempts == map[]
  {
    s9 := Apply(s, Expire(0, 0), top);
    assert s9.attempts == map[2 := Attempt(0, false, false)];
    s10 := Apply(s9, GiveUp(2), top);
    assert s10.attempts == map[];
  }

  /** The low task holds the mutex, and the two others have waited for it since
      before. */
  lemma LowHoldsAhead(s: System, top: nat) returns (run: seq<Step>, end: System)
    requires top > 3 && s == Rested(map[0 := 1, 1 := 2, 2 := 2, 3 := 3])
    ensures Gets(s, run, top, end)
    ensures Looks(end, map[0 := 1, 1 := 2, 2 := 2, 3 := 3], map[1 := 0, 0 := 1], map[0 := 0], [Entry(top - 2, 2)],
                  map[2 := Attempt(0, false, true), 3 := Attempt(0, true, false)])
  {
    var s2;
    run, s2 := EqualBlocks(s, top);
    var s3 := HighInFront(s2, 1, map[1 := 1], map[2 := Attempt(0, false, true)], top);
    run := On(s, run, s2, Block(3, 0), s3, top);
    var s4 := SecondGives(s3, top);
    run := On(s, run, s3, Give(1, 0), s4, top);
    end := LowTakes(s4, top);
    run := On(s, run, s4, Take(0, 0), end, top);
  }

  /** The high task waits again and gives up. */
  lemma HighTries(s: System, before: seq<Step>, s5: System, top: nat) returns (run: seq<Step>, end: System)
    requires top > 3 && Gets(s, before, top, s5)
    requires Looks(s5, map[0 := 1, 1 := 2, 2 := 2, 3 := 3], map[1 := 0, 0 := 1], map[0 := 0], [Entry(top - 2, 2)],
                   map[2 := Attempt(0, false, true), 3 := Attempt(0, true, false)])
    ensures Gets(s, run, top, end)
    ensures Looks(end, map[0 := 2, 1 := 2, 2 := 2, 3 := 3], map[1 := 0, 0 := 1], map[0 := 0], [Entry(top - 2, 2)],
                  map[2 := Attempt(0, false, true)])
  {
    var s6 := HighInFront(s5, 0, map[1 := 0, 0 := 1],
                          map[2 := Attempt(0, false, true), 3 := Attempt(0, true, false)], top);
    run := On(s, before, s5, Block(3, 0), s6, top);
    var s7 := HighExpires(s6, top);
    run := On(s, run, s6, Expire(0, 0), s7, top);
    end := HighGivesUp(s7, top);
    run := On(s, run, s7, GiveUp(3), end, top);
  }

  /** A task that waited before the low task took the mutex gives up without
      lowering it, although its priority was inherited from that task alone. */
  lemma KeptAfterTimeOut(top: nat) returns (s: System, run: seq<Step>)
    requires top > 3
    ensures Start(s, top) && LegalRun(s, run, top) && NoNestedBlocking(s, run, top) && OneCallAtATime(s, run, top)
    ensures var f := Final(s, run, top);
            && f.holder == map[0 := 0] && At(f.tasks.held, 0) == 1 && f.attempts == map[]
            && At(f.tasks.base, 0) == 1 && At(f.tasks.priority, 0) == 2
  {
    var s5, s8;
    s := Rested(map[0 := 1, 1 := 2, 2 := 2, 3 := 3]);
    run, s5 := LowHoldsAhead(s, top);
    run, s8 := HighTries(s, run, s5, top);
    var s9, s10 := EqualGivesUp(s8, top);
    run := On(s, run, s8, Expire(0, 0), s9, top);
    run := On(s, run, s9, GiveUp(2), s10, top);
  }
}
