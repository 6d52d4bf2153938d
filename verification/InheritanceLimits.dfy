/** What priority inheritance does not cover, exactly: tasks that block while
    they hold a mutex, and tasks that were waiting before the holder took it.
 */
module InheritanceLimits {
  import opened ListModel
  import opened Inheritance

  // ---------- Which steps keep every holder boosted

  /** The two halves of the boost: who blocked in a tenure still waits, and the
      holder runs at no lower priority. */
  ghost predicate InPlace(s: System) {
    forall m, w :: w in s.Tenure(m) ==> m in s.holder && Waits(s.WaitingFor(m), w)
  }

  ghost predicate NoneAbove(s: System) {
    forall m, w :: w in s.Tenure(m) && m in s.holder ==> At(s.tasks.priority, w) <= At(s.tasks.priority, s.holder[m])
  }

  lemma BoostedHalves(s: System)
    ensures Boosted(s) <==> InPlace(s) && NoneAbove(s)
  {
  }

  /** Nobody runs below its own priority. */
  ghost predicate AtLeastBase(ts: Tasks) {
    forall t :: At(ts.base, t) <= At(ts.priority, t)
  }

  lemma StepAtLeastBase(s: System, step: Step, top: nat)
    requires AtLeastBase(s.tasks) && Enabled(s, step)
    ensures AtLeastBase(Apply(s, step, top).tasks)
  {
    match step
    case Block(t, m) => BlockTasks(s, t, m, top);
    case Give(t, m) => GiveTasks(s, t, m, top);
    case _ =>
  }

  /** The item values of an event list show the priorities of its waiters. */
  ghost predicate Shown(q: seq<Entry<Task>>, ts: Tasks, top: nat) {
    forall i :: 0 <= i < |q| ==> q[i].value + At(ts.priority, q[i].owner) == top
  }

  ghost predicate AllShown(s: System, top: nat) {
    forall m :: Shown(s.WaitingFor(m), s.tasks, top)
  }

  /** No priority but that of t is new. */
  ghost predicate OnlyChanges(ts: Tasks, ts': Tasks, t: Task) {
    forall u :: u != t ==> At(ts'.priority, u) == At(ts.priority, u)
  }

  lemma RevaluedShown(q: seq<Entry<Task>>, ts: Tasks, ts': Tasks, t: Task, top: nat)
    requires Shown(q, ts, top) && OnlyChanges(ts, ts', t) && At(ts'.priority, t) <= top
    ensures Shown(Revalued(q, t, top - At(ts'.priority, t)), ts', top)
  {
    var r := Revalued(q, t, top - At(ts'.priority, t));
    forall i | 0 <= i < |r|
      ensures r[i].value + At(ts'.priority, r[i].owner) == top
    {
      assert q[i].value + At(ts.priority, q[i].owner) == top;
    }
  }

  lemma WithTasksShown(s: System, ts: Tasks, t: Task, top: nat)
    requires AllShown(s, top) && OnlyChanges(s.tasks, ts, t) && At(ts.priority, t) <= top
    ensures AllShown(WithTasks(s, ts, t, top), top)
  {
    var s' := WithTasks(s, ts, t, top);
    forall m
      ensures Shown(s'.WaitingFor(m), ts, top)
    {
      assert Shown(s.WaitingFor(m), s.tasks, top);
      if m in s.waiting {
        RevaluedShown(s.waiting[m], s.tasks, ts, t, top);
      }
    }
  }

  lemma InsertShown(q: seq<Entry<Task>>, e: Entry<Task>, ts: Tasks, top: nat)
    requires Shown(q, ts, top) && e.value + At(ts.priority, e.owner) == top
    ensures Shown(InsertSorted(q, e), ts, top)
  {
    var k := InsertSortedPlace(q, e);
    PlaceByIndex(q, e, InsertSorted(q, e), k);
  }

  lemma RemovedShown(s: System, m: Mutex, k: nat, top: nat)
    requires AllShown(s, top) && k < |s.WaitingFor(m)|
    ensures AllShown(Removed(s, m, k), top)
  {
    forall m'
      ensures Shown(Removed(s, m, k).WaitingFor(m'), s.tasks, top)
    {
      assert Shown(s.WaitingFor(m'), s.tasks, top);
    }
  }

  lemma BlockShown(s: System, t: Task, m: Mutex, top: nat)
    requires AllShown(s, top) && PrioritiesBelow(s.tasks, top) && Enabled(s, Block(t, m))
    ensures AllShown(Apply(s, Block(t, m), top), top) && PrioritiesBelow(Apply(s, Block(t, m), top).tasks, top)
  {
    var h := s.holder[m];
    var ts := Inherit(s.tasks, h, t);
    var s1, s' := WithTasks(s, ts, h, top), Apply(s, Block(t, m), top);
    InheritBelow(s.tasks, h, t, top);
    BlockTasks(s, t, m, top);
    WithTasksShown(s, ts, h, top);
    assert Shown(s1.WaitingFor(m), ts, top);
    InsertShown(s1.WaitingFor(m), Entry(top - At(ts.priority, t), t), ts, top);
    forall m'
      ensures Shown(s'.WaitingFor(m'), ts, top)
    {
      assert m' != m ==> s'.WaitingFor(m') == s1.WaitingFor(m') && Shown(s1.WaitingFor(m'), ts, top);
    }
  }

  lemma GiveShown(s: System, t: Task, m: Mutex, top: nat)
    requires AllShown(s, top) && PrioritiesBelow(s.tasks, top) && Enabled(s, Give(t, m))
    ensures AllShown(Apply(s, Give(t, m), top), top) && PrioritiesBelow(Apply(s, Give(t, m), top).tasks, top)
  {
    var ts := Disinherit(s.tasks, t);
    DisinheritBelow(s.tasks, t, top);
    GiveTasks(s, t, m, top);
    WithTasksShown(s, ts, t, top);
    var s1 := WithTasks(s, ts, t, top);
    var s2 := s1.(holder := s1.holder - {m}, tenure := s1.tenure[m := {}]);
    assert AllShown(s2, top) by {
      forall m' ensures Shown(s2.WaitingFor(m'), ts, top) { assert Shown(s1.WaitingFor(m'), ts, top); }
    }
    if s2.WaitingFor(m) != [] {
      RemovedShown(s2, m, 0, top);
    }
  }

  lemma GiveUpShown(s: System, t: Task, top: nat)
    requires AllShown(s, top) && PrioritiesBelow(s.tasks, top) && Enabled(s, GiveUp(t))
    ensures AllShown(Apply(s, GiveUp(t), top), top) && PrioritiesBelow(Apply(s, GiveUp(t), top).tasks, top)
  {
    var m := s.attempts[t].mutex;
    var s1 := s.(attempts := s.attempts - {t});
    assert AllShown(s1, top) by {
      forall m' ensures Shown(s1.WaitingFor(m'), s.tasks, top) { assert Shown(s.WaitingFor(m'), s.tasks, top); }
    }
    if s.attempts[t].inherited && m in s.holder {
      var q, h := s.WaitingFor(m), s.holder[m];
      assert Shown(q, s.tasks, top);
      HighestBelow(q, s.tasks, top);
      var ts := DisinheritAfterTimeout(s.tasks, h, HighestWaiting(q, top));
      assert At(s.tasks.base, h) < top;
      WithTasksShown(s1, ts, h, top);
    }
  }

  lemma HighestBelow(q: seq<Entry<Task>>, ts: Tasks, top: nat)
    requires Shown(q, ts, top) && PrioritiesBelow(ts, top)
    ensures q != [] ==> HighestWaiting(q, top) == At(ts.priority, q[0].owner)
    ensures top > 0 && HighestWaiting(q, top) < top
  {
    assert At(ts.priority, 0) < top;
    if q != [] {
      assert At(ts.priority, q[0].owner) < top;
    }
  }

  lemma StepShown(s: System, step: Step, top: nat)
    requires AllShown(s, top) && PrioritiesBelow(s.tasks, top) && Enabled(s, step)
    ensures AllShown(Apply(s, step, top), top) && PrioritiesBelow(Apply(s, step, top).tasks, top)
  {
    match step
    case Take(t, m) =>
      var s' := Apply(s, step, top);
      forall m' ensures Shown(s'.WaitingFor(m'), s'.tasks, top) { assert Shown(s.WaitingFor(m'), s.tasks, top); }
    case Block(t, m) => BlockShown(s, t, m, top);
    case Give(t, m) => GiveShown(s, t, m, top);
    case Expire(m, k) => RemovedShown(s, m, k, top);
    case GiveUp(t) => GiveUpShown(s, t, top);
  }

  lemma {:induction false} RunShown(s: System, run: seq<Step>, top: nat)
    requires AllShown(s, top) && PrioritiesBelow(s.tasks, top) && LegalRun(s, run, top)
    ensures AllShown(Final(s, run, top), top)
    decreases |run|
  {
    if run != [] {
      StepShown(s, run[0], top);
      RunShown(Apply(s, run[0], top), run[1..], top);
    }
  }

  /** In every run, with nested blocking too, the item value of each waiter shows
      its priority as it is now, though a waiter whose priority changes keeps
      its place in the list. */
  lemma ItemValuesShowPriorities(s: System, run: seq<Step>, top: nat)
    requires Start(s, top) && LegalRun(s, run, top)
    ensures var f := Final(s, run, top);
            forall m, i :: 0 <= i < |f.WaitingFor(m)| ==>
              f.WaitingFor(m)[i].value + At(f.tasks.priority, f.WaitingFor(m)[i].owner) == top
  {
    RunShown(s, run, top);
    var f := Final(s, run, top);
    forall m, i | 0 <= i < |f.WaitingFor(m)|
      ensures f.WaitingFor(m)[i].value + At(f.tasks.priority, f.WaitingFor(m)[i].owner) == top
    {
      assert Shown(f.WaitingFor(m), f.tasks, top);
    }
  }

  /** A task running at p stays at or below the holders of all that it has
      waited for since they took it. */
  ghost predicate HoldersAtLeast(s: System, t: Task, p: nat) {
    forall m :: t in s.Tenure(m) && m in s.holder && s.holder[m] != t ==> p <= At(s.tasks.priority, s.holder[m])
  }

  /** What a waiter that gives up would set the priority of the holder to. */
  function PriorityAfter(s: System, m: Mutex, top: nat): nat
    requires m in s.holder
  {
    var base, highest := At(s.tasks.base, s.holder[m]), HighestWaiting(s.WaitingFor(m), top);
    if base < highest then highest else base
  }

  predicate ChangesHolder(s: System, t: Task, top: nat)
    requires Enabled(s, GiveUp(t))
  {
    var m := s.attempts[t].mutex;
    && s.attempts[t].inherited && m in s.holder && At(s.tasks.held, s.holder[m]) == 1
    && At(s.tasks.priority, s.holder[m]) != PriorityAfter(s, m, top)
  }

  /** A block either does not raise the holder, or not above the holder of
      anything that it waits for itself; a time-out that changes the priority
      of a holder does not put it above those either, nor below a waiter. */
  ghost predicate Covered(s: System, step: Step, top: nat)
    requires Enabled(s, step)
  {
    match step
    case Block(t, m) =>
      var p := At(s.tasks.priority, t);
      p <= At(s.tasks.priority, s.holder[m]) || HoldersAtLeast(s, s.holder[m], p)
    case GiveUp(t) =>
      var m := s.attempts[t].mutex;
      ChangesHolder(s, t, top) ==>
        && HoldersAtLeast(s, s.holder[m], PriorityAfter(s, m, top))
        && forall w :: w in s.Tenure(m) && w != s.holder[m] ==> At(s.tasks.priority, w) <= PriorityAfter(s, m, top)
    case _ => true
  }

  lemma RevaluedWaits(q: seq<Entry<Task>>, t: Task, value: nat)
    ensures forall u :: Waits(Revalued(q, t, value), u) <==> Waits(q, u)
  {
    var r := Revalued(q, t, value);
    assert forall i :: 0 <= i < |q| ==> r[i].owner == q[i].owner;
  }

  lemma WithTasksWaits(s: System, ts: Tasks, t: Task, top: nat)
    ensures forall m, u :: Waits(WithTasks(s, ts, t, top).WaitingFor(m), u) <==> Waits(s.WaitingFor(m), u)
  {
    forall m
      ensures forall u :: Waits(WithTasks(s, ts, t, top).WaitingFor(m), u) <==> Waits(s.WaitingFor(m), u)
    {
      if m in s.waiting && At(ts.priority, t) <= top {
        RevaluedWaits(s.waiting[m], t, top - At(ts.priority, t));
      }
    }
  }

  lemma RemovedInPlace(s: System, m: Mutex, k: nat)
    requires k < |s.WaitingFor(m)| && InPlace(s)
    ensures InPlace(Removed(s, m, k))
  {
    var s' := Removed(s, m, k);
    RemovedWaits(s.WaitingFor(m), k);
    forall m', w | w in s'.Tenure(m')
      ensures m' in s'.holder && Waits(s'.WaitingFor(m'), w)
    {
      assert w in s.Tenure(m');
    }
  }

  lemma BlockInPlace(s: System, t: Task, m: Mutex, top: nat)
    requires Enabled(s, Block(t, m)) && InPlace(s)
    ensures InPlace(Apply(s, Block(t, m), top))
  {
    var ts := Inherit(s.tasks, s.holder[m], t);
    var s1 := WithTasks(s, ts, s.holder[m], top);
    WithTasksWaits(s, ts, s.holder[m], top);
    var p := At(ts.priority, t);
    InsertWaits(s1.WaitingFor(m), Entry(if p <= top then top - p else 0, t));
    var s' := Apply(s, Block(t, m), top);
    forall m', w | w in s'.Tenure(m')
      ensures m' in s'.holder && Waits(s'.WaitingFor(m'), w)
    {
      assert w in s.Tenure(m') || (m' == m && w == t);
    }
  }

  lemma GiveInPlace(s: System, t: Task, m: Mutex, top: nat)
    requires Enabled(s, Give(t, m)) && InPlace(s)
    ensures InPlace(Apply(s, Give(t, m), top))
  {
    var s1 := WithTasks(s, Disinherit(s.tasks, t), t, top);
    WithTasksWaits(s, Disinherit(s.tasks, t), t, top);
    var s2 := s1.(holder := s1.holder - {m}, tenure := s1.tenure[m := {}]);
    forall m', w | w in s2.Tenure(m')
      ensures m' in s2.holder && Waits(s2.WaitingFor(m'), w)
    {
      assert w in s.Tenure(m');
    }
    if s2.WaitingFor(m) != [] {
      RemovedInPlace(s2, m, 0);
    }
  }

  lemma GiveUpInPlace(s: System, t: Task, top: nat)
    requires Enabled(s, GiveUp(t)) && InPlace(s)
    ensures InPlace(Apply(s, GiveUp(t), top))
  {
    var m, s1 := s.attempts[t].mutex, s.(attempts := s.attempts - {t});
    if s.attempts[t].inherited && m in s.holder {
      var ts := DisinheritAfterTimeout(s.tasks, s.holder[m], HighestWaiting(s.WaitingFor(m), top));
      WithTasksWaits(s1, ts, s.holder[m], top);
    }
    var s' := Apply(s, GiveUp(t), top);
    forall m', w | w in s'.Tenure(m')
      ensures m' in s'.holder && Waits(s'.WaitingFor(m'), w)
    {
      assert w in s.Tenure(m');
    }
  }

  lemma TakeInPlace(s: System, t: Task, m: Mutex, top: nat)
    requires Enabled(s, Take(t, m)) && InPlace(s)
    ensures InPlace(Apply(s, Take(t, m), top))
  {
    var s' := Apply(s, Take(t, m), top);
    forall m', w | w in s'.Tenure(m')
      ensures m' in s'.holder && Waits(s'.WaitingFor(m'), w)
    {
      assert w in s.Tenure(m');
    }
  }

  lemma StepInPlace(s: System, step: Step, top: nat)
    requires Enabled(s, step) && InPlace(s)
    ensures InPlace(Apply(s, step, top))
  {
    match step
    case Take(t, m) => TakeInPlace(s, t, m, top);
    case Block(t, m) => BlockInPlace(s, t, m, top);
    case Give(t, m) => GiveInPlace(s, t, m, top);
    case Expire(m, k) => RemovedInPlace(s, m, k);
    case GiveUp(t) => GiveUpInPlace(s, t, top);
  }

  /** What another priority for one task does. */
  lemma PriorityChanged(s: System, s': System, h: Task, p: nat)
    requires NoneAbove(s) && s'.holder == s.holder && s'.tenure == s.tenure
    requires forall t :: At(s'.tasks.priority, t) == if t == h then p else At(s.tasks.priority, t)
    ensures NoneAbove(s') <==>
            && HoldersAtLeast(s, h, p)
            && forall m, w :: w in s.Tenure(m) && m in s.holder && s.holder[m] == h && w != h ==>
                 At(s.tasks.priority, w) <= p
  {
    assert forall m :: s'.Tenure(m) == s.Tenure(m);
    if NoneAbove(s') {
      forall m | h in s.Tenure(m) && m in s.holder && s.holder[m] != h
        ensures p <= At(s.tasks.priority, s.holder[m])
      {
        assert h in s'.Tenure(m);
      }
      forall m, w | w in s.Tenure(m) && m in s.holder && s.holder[m] == h && w != h
        ensures At(s.tasks.priority, w) <= p
      {
        assert w in s'.Tenure(m);
      }
    }
  }

  lemma TakeExactly(s: System, t: Task, m: Mutex, top: nat)
    requires NoneAbove(s) && Enabled(s, Take(t, m))
    ensures NoneAbove(Apply(s, Take(t, m), top))
  {
    assert forall m' | m' != m :: Apply(s, Take(t, m), top).Tenure(m') == s.Tenure(m');
  }

  lemma BlockParts(s: System, t: Task, m: Mutex, top: nat)
    requires Enabled(s, Block(t, m))
    ensures var s', p, h := Apply(s, Block(t, m), top), At(s.tasks.priority, t), s.holder[m];
            && s'.holder == s.holder && s'.tenure == s.tenure[m := s.Tenure(m) + {t}]
            && s'.tasks.priority == if At(s.tasks.priority, h) < p then s.tasks.priority[h := p] else s.tasks.priority
  {
  }

  /** One more task in a tenure, no higher than the holder, makes no difference. */
  lemma OneMoreInTenure(s: System, s': System, t: Task, m: Mutex)
    requires s'.holder == s.holder && s'.tasks.priority == s.tasks.priority && m in s.holder
    requires s'.tenure == s.tenure[m := s.Tenure(m) + {t}]
    requires At(s.tasks.priority, t) <= At(s.tasks.priority, s.holder[m])
    ensures NoneAbove(s') <==> NoneAbove(s)
  {
    assert forall m' :: s'.Tenure(m') == s.Tenure(m') + if m' == m then {t} else {};
    if NoneAbove(s') {
      forall m', w | w in s.Tenure(m') && m' in s.holder
        ensures At(s.tasks.priority, w) <= At(s.tasks.priority, s.holder[m'])
      {
        assert w in s'.Tenure(m');
      }
    }
  }

  lemma BlockExactly(s: System, t: Task, m: Mutex, top: nat)
    requires NoneAbove(s) && Enabled(s, Block(t, m))
    ensures NoneAbove(Apply(s, Block(t, m), top)) <==> Covered(s, Block(t, m), top)
  {
    var s', h, p := Apply(s, Block(t, m), top), s.holder[m], At(s.tasks.priority, t);
    var raised := s.(tasks := Inherit(s.tasks, h, t));
    BlockParts(s, t, m, top);
    PriorityChanged(s, raised, h, if At(s.tasks.priority, h) < p then p else At(s.tasks.priority, h));
    OneMoreInTenure(raised, s', t, m);
  }

  lemma GiveParts(s: System, t: Task, m: Mutex, top: nat)
    requires Enabled(s, Give(t, m))
    ensures var s' := Apply(s, Give(t, m), top);
            && s'.holder == s.holder - {m} && s'.tasks == Disinherit(s.tasks, t)
            && forall m' :: s'.Tenure(m') == if m' == m then {} else s.Tenure(m')
  {
  }

  lemma GiveExactly(s: System, t: Task, m: Mutex, top: nat)
    requires NoneAbove(s) && Settled(s) && AtLeastBase(s.tasks) && Enabled(s, Give(t, m))
    ensures NoneAbove(Apply(s, Give(t, m), top))
  {
    var s' := Apply(s, Give(t, m), top);
    GiveParts(s, t, m, top);
    HeldByGive(s.holder, t, m);
    forall m', w | w in s'.Tenure(m') && m' in s'.holder
      ensures At(s'.tasks.priority, w) <= At(s'.tasks.priority, s'.holder[m'])
    {
      assert w in s.Tenure(m');
      if s.holder[m'] == t {
        LastGiven(s, t, m, m');
      }
    }
  }

  /** A task that gives one of several mutexes back keeps its priority. */
  lemma LastGiven(s: System, t: Task, m: Mutex, m': Mutex)
    requires Settled(s) && Enabled(s, Give(t, m)) && m' in s.holder && m' != m && s.holder[m'] == t
    ensures Disinherit(s.tasks, t).priority == s.tasks.priority
  {
    HeldByGive(s.holder, t, m);
    assert m' in HeldBy(s.holder - {m}, t);
  }

  lemma ExpireExactly(s: System, m: Mutex, k: nat)
    requires NoneAbove(s) && k < |s.WaitingFor(m)|
    ensures NoneAbove(Removed(s, m, k))
  {
    var s' := Removed(s, m, k);
    forall m', w | w in s'.Tenure(m') && m' in s'.holder
      ensures At(s'.tasks.priority, w) <= At(s'.tasks.priority, s'.holder[m'])
    {
      assert w in s.Tenure(m');
    }
  }

  lemma GiveUpParts(s: System, t: Task, top: nat)
    requires Enabled(s, GiveUp(t))
    ensures var s', m := Apply(s, GiveUp(t), top), s.attempts[t].mutex;
            && s'.holder == s.holder && s'.tenure == s.tenure
            && s'.tasks.priority == if ChangesHolder(s, t, top)
                                    then s.tasks.priority[s.holder[m] := PriorityAfter(s, m, top)]
                                    else s.tasks.priority
  {
  }

  lemma GiveUpExactly(s: System, t: Task, top: nat)
    requires NoneAbove(s) && Settled(s) && Enabled(s, GiveUp(t))
    ensures NoneAbove(Apply(s, GiveUp(t), top)) <==> Covered(s, GiveUp(t), top)
  {
    var s' := Apply(s, GiveUp(t), top);
    GiveUpParts(s, t, top);
    if ChangesHolder(s, t, top) {
      var m := s.attempts[t].mutex;
      var h := s.holder[m];
      PriorityChanged(s, s', h, PriorityAfter(s, m, top));
      forall m' | m' in s.holder && s.holder[m'] == h
        ensures m' == m
      {
        assert At(s.tasks.held, h) == |HeldBy(s.holder, h)|;
        OnlyOne(s.holder, h, m, m');
      }
    } else {
      assert forall m' :: s'.Tenure(m') == s.Tenure(m');
    }
  }

  /** From a state in which every holder is boosted, a step leads to another if
      and only if it is covered. */
  lemma StepBoostedExactly(s: System, step: Step, top: nat)
    requires Settled(s) && AtLeastBase(s.tasks) && Boosted(s) && Enabled(s, step)
    ensures Boosted(Apply(s, step, top)) <==> Covered(s, step, top)
  {
    BoostedHalves(s);
    BoostedHalves(Apply(s, step, top));
    StepInPlace(s, step, top);
    match step
    case Take(t, m) => TakeExactly(s, t, m, top);
    case Block(t, m) => BlockExactly(s, t, m, top);
    case Give(t, m) => GiveExactly(s, t, m, top);
    case Expire(m, k) => ExpireExactly(s, m, k);
    case GiveUp(t) => GiveUpExactly(s, t, top);
  }

  ghost predicate AlwaysBoosted(s: System, run: seq<Step>, top: nat)
    requires LegalRun(s, run, top)
    decreases |run|
  {
    Boosted(s) && (run == [] || AlwaysBoosted(Apply(s, run[0], top), run[1..], top))
  }

  ghost predicate AllCovered(s: System, run: seq<Step>, top: nat)
    requires LegalRun(s, run, top)
    decreases |run|
  {
    run == [] || (Covered(s, run[0], top) && AllCovered(Apply(s, run[0], top), run[1..], top))
  }

  lemma {:induction false} BoostedFrom(s: System, run: seq<Step>, top: nat)
    requires Settled(s) && AtLeastBase(s.tasks) && Boosted(s) && LegalRun(s, run, top)
    ensures AlwaysBoosted(s, run, top) <==> AllCovered(s, run, top)
    decreases |run|
  {
    if run != [] {
      StepBoostedExactly(s, run[0], top);
      if Covered(s, run[0], top) {
        StepKeepsSettled(s, run[0], top);
        StepAtLeastBase(s, run[0], top);
        BoostedFrom(Apply(s, run[0], top), run[1..], top);
      } else {
        NotBoosted(Apply(s, run[0], top), run[1..], top);
      }
    }
  }

  lemma NotBoosted(s: System, run: seq<Step>, top: nat)
    requires LegalRun(s, run, top) && !Boosted(s)
    ensures !AlwaysBoosted(s, run, top)
  {
  }

  /** Tasks may block whatever they hold: in a run every holder is boosted
      throughout if and only if each step is covered. */
  lemma BoostedExactly(s: System, run: seq<Step>, top: nat)
    requires Start(s, top) && LegalRun(s, run, top)
    ensures AlwaysBoosted(s, run, top) <==> AllCovered(s, run, top)
  {
    StartInvariant(s, top);
    BoostedFrom(s, run, top);
  }

  // ---------- Tasks that waited before the holder took the mutex

  /** A holder runs at no lower priority than any task that waits, whenever it
      began to. */
  ghost predicate NoWaiterAbove(s: System) {
    forall m, w :: m in s.holder && Waits(s.WaitingFor(m), w) ==>
      At(s.tasks.priority, w) <= At(s.tasks.priority, s.holder[m])
  }

  /** Removing a waiter, giving the mutex up or raising its holder puts no
      waiter above a holder. */
  lemma FewerWaiters(s: System, s': System)
    requires NoWaiterAbove(s)
    requires forall m :: m in s'.holder ==> m in s.holder && s'.holder[m] == s.holder[m]
    requires forall m, w :: m in s'.holder && Waits(s'.WaitingFor(m), w) ==>
      && Waits(s.WaitingFor(m), w) && At(s'.tasks.priority, w) == At(s.tasks.priority, w)
      && At(s.tasks.priority, s.holder[m]) <= At(s'.tasks.priority, s.holder[m])
    ensures NoWaiterAbove(s')
  {
    forall m, w | m in s'.holder && Waits(s'.WaitingFor(m), w)
      ensures At(s'.tasks.priority, w) <= At(s'.tasks.priority, s'.holder[m])
    {
      assert Waits(s.WaitingFor(m), w);
    }
  }

  lemma ExpireBelow(s: System, m: Mutex, k: nat)
    requires NoWaiterAbove(s) && k < |s.WaitingFor(m)|
    ensures NoWaiterAbove(Removed(s, m, k))
  {
    RemovedWaits(s.WaitingFor(m), k);
    FewerWaiters(s, Removed(s, m, k));
  }

  /** A task running at p stays at or below the holders of all that it waits for. */
  ghost predicate OwnersAtLeast(s: System, t: Task, p: nat) {
    forall m :: m in s.holder && Waits(s.WaitingFor(m), t) && s.holder[m] != t ==>
      p <= At(s.tasks.priority, s.holder[m])
  }

  /** Nobody who waits for a mutex of h, other than h, is above p. */
  ghost predicate WaitersAtMost(s: System, m: Mutex, h: Task, p: nat) {
    forall w :: Waits(s.WaitingFor(m), w) && w != h ==> At(s.tasks.priority, w) <= p
  }

  /** A take goes past no waiter of higher priority; a block does not raise the
      holder, or not above the owner of anything it waits for; a time-out that
      changes the priority of a holder keeps it between its waiters and those. */
  ghost predicate Passable(s: System, step: Step, top: nat)
    requires Enabled(s, step)
  {
    match step
    case Take(t, m) => WaitersAtMost(s, m, t, At(s.tasks.priority, t))
    case Block(t, m) =>
      var p := At(s.tasks.priority, t);
      p <= At(s.tasks.priority, s.holder[m]) || OwnersAtLeast(s, s.holder[m], p)
    case GiveUp(t) =>
      var m := s.attempts[t].mutex;
      ChangesHolder(s, t, top) ==>
        var h, p := s.holder[m], PriorityAfter(s, m, top);
        OwnersAtLeast(s, h, p) && WaitersAtMost(s, m, h, p)
    case _ => true
  }

  /** What another priority for one task does to the waiters. */
  lemma PriorityMoved(s: System, s': System, h: Task, p: nat)
    requires NoWaiterAbove(s) && s'.holder == s.holder
    requires forall m, w :: Waits(s'.WaitingFor(m), w) <==> Waits(s.WaitingFor(m), w)
    requires forall t :: At(s'.tasks.priority, t) == if t == h then p else At(s.tasks.priority, t)
    ensures NoWaiterAbove(s') <==>
            && OwnersAtLeast(s, h, p)
            && forall m :: m in s.holder && s.holder[m] == h ==> WaitersAtMost(s, m, h, p)
  {
    if NoWaiterAbove(s') {
      forall m | m in s.holder && Waits(s.WaitingFor(m), h) && s.holder[m] != h
        ensures p <= At(s.tasks.priority, s.holder[m])
      {
        assert Waits(s'.WaitingFor(m), h);
      }
      forall m | m in s.holder && s.holder[m] == h
        ensures WaitersAtMost(s, m, h, p)
      {
        forall w | Waits(s.WaitingFor(m), w) && w != h
          ensures At(s.tasks.priority, w) <= p
        {
          assert Waits(s'.WaitingFor(m), w);
        }
      }
    }
  }

  lemma TakePassable(s: System, t: Task, m: Mutex, top: nat)
    requires NoWaiterAbove(s) && Enabled(s, Take(t, m))
    ensures NoWaiterAbove(Apply(s, Take(t, m), top)) <==> Passable(s, Take(t, m), top)
  {
    var s' := Apply(s, Take(t, m), top);
    assert forall m' :: s'.WaitingFor(m') == s.WaitingFor(m');
    if NoWaiterAbove(s') {
      forall w | Waits(s.WaitingFor(m), w) && w != t
        ensures At(s.tasks.priority, w) <= At(s.tasks.priority, t)
      {
        assert Waits(s'.WaitingFor(m), w);
      }
    }
  }

  lemma BlockWaits(s: System, t: Task, m: Mutex, top: nat)
    requires Enabled(s, Block(t, m))
    ensures forall m', w :: Waits(Apply(s, Block(t, m), top).WaitingFor(m'), w) <==>
                            (m' == m && w == t) || Waits(s.WaitingFor(m'), w)
  {
    var ts := Inherit(s.tasks, s.holder[m], t);
    var s1 := WithTasks(s, ts, s.holder[m], top);
    WithTasksWaits(s, ts, s.holder[m], top);
    var p := At(ts.priority, t);
    InsertWaits(s1.WaitingFor(m), Entry(if p <= top then top - p else 0, t));
  }

  /** One more waiter, no higher than the holder, makes no difference. */
  lemma OneMoreWaiter(s: System, s': System, t: Task, m: Mutex)
    requires s'.holder == s.holder && s'.tasks == s.tasks && m in s.holder
    requires At(s.tasks.priority, t) <= At(s.tasks.priority, s.holder[m])
    requires forall m', w :: Waits(s'.WaitingFor(m'), w) <==> (m' == m && w == t) || Waits(s.WaitingFor(m'), w)
    ensures NoWaiterAbove(s') <==> NoWaiterAbove(s)
  {
    if NoWaiterAbove(s') {
      forall m', w | m' in s.holder && Waits(s.WaitingFor(m'), w)
        ensures At(s.tasks.priority, w) <= At(s.tasks.priority, s.holder[m'])
      {
        assert Waits(s'.WaitingFor(m'), w);
      }
    }
  }

  lemma BlockPassable(s: System, t: Task, m: Mutex, top: nat)
    requires NoWaiterAbove(s) && Enabled(s, Block(t, m))
    ensures NoWaiterAbove(Apply(s, Block(t, m), top)) <==> Passable(s, Block(t, m), top)
  {
    var s', h, p := Apply(s, Block(t, m), top), s.holder[m], At(s.tasks.priority, t);
    var raised := s.(tasks := Inherit(s.tasks, h, t));
    BlockTasks(s, t, m, top);
    BlockWaits(s, t, m, top);
    OneMoreWaiter(raised, s', t, m);
    RaisePassable(s, raised, h, if At(s.tasks.priority, h) < p then p else At(s.tasks.priority, h));
  }

  /** A raised holder is still above its own waiters. */
  lemma RaisePassable(s: System, raised: System, h: Task, p: nat)
    requires NoWaiterAbove(s) && raised == s.(tasks := raised.tasks) && At(s.tasks.priority, h) <= p
    requires forall t :: At(raised.tasks.priority, t) == if t == h then p else At(s.tasks.priority, t)
    ensures NoWaiterAbove(raised) <==> p == At(s.tasks.priority, h) || OwnersAtLeast(s, h, p)
  {
    PriorityMoved(s, raised, h, p);
  }

  lemma GiveBelowNested(s: System, t: Task, m: Mutex, top: nat)
    requires NoWaiterAbove(s) && Settled(s) && AtLeastBase(s.tasks) && Enabled(s, Give(t, m))
    ensures NoWaiterAbove(Apply(s, Give(t, m), top))
  {
    var s' := Apply(s, Give(t, m), top);
    GiveParts(s, t, m, top);
    GiveWaits(s, t, m, top);
    forall m', w | m' in s'.holder && Waits(s'.WaitingFor(m'), w)
      ensures At(s'.tasks.priority, w) <= At(s'.tasks.priority, s'.holder[m'])
    {
      assert Waits(s.WaitingFor(m'), w);
      if s.holder[m'] == t {
        LastGiven(s, t, m, m');
      }
    }
  }

  lemma GiveWaits(s: System, t: Task, m: Mutex, top: nat)
    requires Enabled(s, Give(t, m))
    ensures forall m', w :: Waits(Apply(s, Give(t, m), top).WaitingFor(m'), w) ==> Waits(s.WaitingFor(m'), w)
  {
    var s1 := WithTasks(s, Disinherit(s.tasks, t), t, top);
    WithTasksWaits(s, Disinherit(s.tasks, t), t, top);
    if s1.WaitingFor(m) != [] {
      RemovedWaits(s1.WaitingFor(m), 0);
    }
  }

  lemma GiveUpWaits(s: System, t: Task, top: nat)
    requires Enabled(s, GiveUp(t))
    ensures forall m', w :: Waits(Apply(s, GiveUp(t), top).WaitingFor(m'), w) <==> Waits(s.WaitingFor(m'), w)
  {
    var m, s1 := s.attempts[t].mutex, s.(attempts := s.attempts - {t});
    if s.attempts[t].inherited && m in s.holder {
      var ts := DisinheritAfterTimeout(s.tasks, s.holder[m], HighestWaiting(s.WaitingFor(m), top));
      WithTasksWaits(s1, ts, s.holder[m], top);
    }
  }

  lemma GiveUpPassable(s: System, t: Task, top: nat)
    requires NoWaiterAbove(s) && Settled(s) && Enabled(s, GiveUp(t))
    ensures NoWaiterAbove(Apply(s, GiveUp(t), top)) <==> Passable(s, GiveUp(t), top)
  {
    var s' := Apply(s, GiveUp(t), top);
    GiveUpParts(s, t, top);
    GiveUpWaits(s, t, top);
    if ChangesHolder(s, t, top) {
      var m := s.attempts[t].mutex;
      var h := s.holder[m];
      PriorityMoved(s, s', h, PriorityAfter(s, m, top));
      forall m' | m' in s.holder && s.holder[m'] == h
        ensures m' == m
      {
        assert At(s.tasks.held, h) == |HeldBy(s.holder, h)|;
        OnlyOne(s.holder, h, m, m');
      }
    } else {
      FewerWaiters(s, s');
    }
  }

  /** From a state in which nobody waits above a holder, a step leads to another
      if and only if it is passable, whatever tasks hold when they block. */
  lemma StepPassable(s: System, step: Step, top: nat)
    requires Settled(s) && AtLeastBase(s.tasks) && NoWaiterAbove(s) && Enabled(s, step)
    ensures NoWaiterAbove(Apply(s, step, top)) <==> Passable(s, step, top)
  {
    match step
    case Take(t, m) => TakePassable(s, t, m, top);
    case Block(t, m) => BlockPassable(s, t, m, top);
    case Give(t, m) => GiveBelowNested(s, t, m, top);
    case Expire(m, k) => ExpireBelow(s, m, k);
    case GiveUp(t) => GiveUpPassable(s, t, top);
  }

  ghost predicate AllPassable(s: System, run: seq<Step>, top: nat)
    requires LegalRun(s, run, top)
    decreases |run|
  {
    run == [] || (Passable(s, run[0], top) && AllPassable(Apply(s, run[0], top), run[1..], top))
  }

  ghost predicate NeverAbove(s: System, run: seq<Step>, top: nat)
    requires LegalRun(s, run, top)
    decreases |run|
  {
    NoWaiterAbove(s) && (run == [] || NeverAbove(Apply(s, run[0], top), run[1..], top))
  }

  lemma NotBelow(s: System, run: seq<Step>, top: nat)
    requires LegalRun(s, run, top) && !NoWaiterAbove(s)
    ensures !NeverAbove(s, run, top)
  {
  }

  lemma {:induction false} PassableFrom(s: System, run: seq<Step>, top: nat)
    requires Settled(s) && AtLeastBase(s.tasks) && NoWaiterAbove(s) && LegalRun(s, run, top)
    ensures NeverAbove(s, run, top) <==> AllPassable(s, run, top)
    decreases |run|
  {
    if run != [] {
      StepPassable(s, run[0], top);
      if Passable(s, run[0], top) {
        StepKeepsSettled(s, run[0], top);
        StepAtLeastBase(s, run[0], top);
        PassableFrom(Apply(s, run[0], top), run[1..], top);
      } else {
        NotBelow(Apply(s, run[0], top), run[1..], top);
      }
    }
  }

  /** In every run, however nested, no task ever waits above the holder of what
      it waits for, if and only if each step is passable. */
  lemma NestedWaitersExactly(s: System, run: seq<Step>, top: nat)
    requires Start(s, top) && LegalRun(s, run, top)
    ensures NeverAbove(s, run, top) <==> AllPassable(s, run, top)
  {
    StartInvariant(s, top);
    PassableFrom(s, run, top);
  }

  // ---------- The same without nested blocking

  /** The taker runs at no lower priority than the first waiter. */
  predicate TakesFromAbove(s: System, step: Step, top: nat) {
    step.Take? ==> HighestWaiting(s.WaitingFor(step.m), top) <= At(s.tasks.priority, step.t)
  }

  /** The first of an event list has the highest priority of all. */
  lemma FirstIsHighest(s: System, m: Mutex, top: nat, p: nat)
    requires ListsOk(s, top)
    ensures (forall w :: Waits(s.WaitingFor(m), w) ==> At(s.tasks.priority, w) <= p) <==>
            HighestWaiting(s.WaitingFor(m), top) <= p
  {
    var q := s.WaitingFor(m);
    assert ListOk(q, s.tasks, s.attempts, m, top);
    if q != [] {
      assert WaiterOk(q[0], s.tasks, s.attempts, m, top);
      assert Waits(q, q[0].owner);
      forall w | Waits(q, w)
        ensures At(s.tasks.priority, w) <= At(s.tasks.priority, q[0].owner)
      {
        var i :| 0 <= i < |q| && q[i].owner == w;
        assert WaiterOk(q[i], s.tasks, s.attempts, m, top);
      }
    }
  }

  predicate AllFromAbove(s: System, run: seq<Step>, top: nat)
    requires LegalRun(s, run, top)
    decreases |run|
  {
    run == [] || (TakesFromAbove(s, run[0], top) && AllFromAbove(Apply(s, run[0], top), run[1..], top))
  }

  /** Whoever holds a mutex waits for none. */
  lemma OwnersFree(s: System, m: Mutex, p: nat, top: nat)
    requires Settled(s) && ListsOk(s, top) && m in s.holder
    ensures OwnersAtLeast(s, s.holder[m], p)
  {
    HolderHolds(s, m);
    forall m'
      ensures !Waits(s.WaitingFor(m'), s.holder[m])
    {
      if Waits(s.WaitingFor(m'), s.holder[m]) {
        WaiterIsBlocked(s, m', s.holder[m], top);
        assert false;
      }
    }
  }

  /** Where nobody blocks while holding a mutex, a step is passable if and only
      if it takes no mutex past a first waiter of higher priority. */
  lemma PassableEmptyHanded(s: System, step: Step, top: nat)
    requires Settled(s) && ListsOk(s, top) && Enabled(s, step)
    ensures Passable(s, step, top) <==> TakesFromAbove(s, step, top)
  {
    match step
    case Take(t, m) =>
      FirstIsHighest(s, m, top, At(s.tasks.priority, t));
    case Block(t, m) =>
      OwnersFree(s, m, At(s.tasks.priority, t), top);
    case GiveUp(t) =>
      var m := s.attempts[t].mutex;
      if ChangesHolder(s, t, top) {
        OwnersFree(s, m, PriorityAfter(s, m, top), top);
        FirstIsHighest(s, m, top, PriorityAfter(s, m, top));
      }
    case _ =>
  }

  /** A task takes a free mutex: all that still wait for it are at or below it
      if and only if the first of them is. */
  lemma TakeAboveExactly(s: System, t: Task, m: Mutex, top: nat)
    requires ListsOk(s, top) && NoWaiterAbove(s) && Enabled(s, Take(t, m))
    ensures NoWaiterAbove(Apply(s, Take(t, m), top)) <==> TakesFromAbove(s, Take(t, m), top)
  {
    TakePassable(s, t, m, top);
    FirstIsHighest(s, m, top, At(s.tasks.priority, t));
  }

  lemma {:induction false} PassableFromAbove(s: System, run: seq<Step>, top: nat)
    requires Invariant(s, top) && LegalRun(s, run, top) && NoNestedBlocking(s, run, top)
    ensures AllPassable(s, run, top) <==> AllFromAbove(s, run, top)
    decreases |run|
  {
    if run != [] {
      PassableEmptyHanded(s, run[0], top);
      StepKeepsInvariant(s, run[0], top);
      PassableFromAbove(Apply(s, run[0], top), run[1..], top);
    }
  }

  /** In a run in which nobody blocks while holding a mutex, no task ever waits
      above the holder of what it waits for, if and only if no mutex is taken
      past a waiter of higher priority. */
  lemma WaitersBelowExactly(s: System, run: seq<Step>, top: nat)
    requires Start(s, top) && LegalRun(s, run, top) && NoNestedBlocking(s, run, top)
    ensures NeverAbove(s, run, top) <==> AllFromAbove(s, run, top)
  {
    StartInvariant(s, top);
    NestedWaitersExactly(s, run, top);
    PassableFromAbove(s, run, top);
  }

  // ---------- Runs that show it

  ghost predicate Reaches(s: System, run: seq<Step>, top: nat, end: System) {
    LegalRun(s, run, top) && Final(s, run, top) == end
  }

  lemma {:induction false} RunExtends(s: System, run: seq<Step>, mid: System, step: Step, end: System, top: nat)
    requires Reaches(s, run, top, mid) && Enabled(mid, step) && end == Apply(mid, step, top)
    ensures Reaches(s, run + [step], top, end)
    decreases |run|
  {
    var all := run + [step];
    if run == [] {
      assert all[1..] == [];
    } else {
      RunExtends(Apply(s, run[0], top), run[1..], mid, step, end, top);
      assert all[1..] == run[1..] + [step];
    }
  }

  lemma {:induction false} NestingExtends(s: System, run: seq<Step>, mid: System, step: Step, top: nat)
    requires Reaches(s, run, top, mid) && LegalRun(s, run + [step], top)
    ensures NoNestedBlocking(s, run + [step], top) <==>
            NoNestedBlocking(s, run, top) && BlocksEmptyHanded(mid, step)
    decreases |run|
  {
    var all := run + [step];
    if run == [] {
      assert all[1..] == [];
    } else {
      assert all[1..] == run[1..] + [step];
      NestingExtends(Apply(s, run[0], top), run[1..], mid, step, top);
    }
  }

  /** A run goes on with one more step. */
  lemma Longer(s: System, run: seq<Step>, mid: System, step: Step, end: System, top: nat) returns (run': seq<Step>)
    requires Reaches(s, run, top, mid) && Enabled(mid, step) && end == Apply(mid, step, top)
    ensures Reaches(s, run', top, end)
    ensures NoNestedBlocking(s, run', top) <==> NoNestedBlocking(s, run, top) && BlocksEmptyHanded(mid, step)
  {
    run' := run + [step];
    RunExtends(s, run, mid, step, end, top);
    NestingExtends(s, run, mid, step, top);
  }

  /** Tasks of the given priorities, none of them holding or waiting yet. */
  function Rested(own: Table): System {
    System(Tasks(own, own, map[]), map[], map[], map[], map[])
  }

  /** The low task takes mutex 0 and the middle task mutex 1. */
  lemma TwoTaken(s: System, top: nat) returns (run: seq<Step>, end: System)
    requires s == Rested(map[0 := 1, 1 := 2, 2 := 3])
    ensures Reaches(s, run, top, end)
    ensures end.tasks.priority == s.tasks.priority && At(end.tasks.held, 1) == 1
    ensures end.holder == map[0 := 0, 1 := 1] && end.attempts == map[]
  {
    var s1 := Apply(s, Take(0, 0), top);
    assert s1.attempts == map[];
    end := Apply(s1, Take(1, 1), top);
    assert end.attempts == map[];
    run := Longer(s, [], s, Take(0, 0), s1, top);
    run := Longer(s, run, s1, Take(1, 1), end, top);
  }

  /** The middle task waits for mutex 0, and the low task runs at its priority. */
  ghost predicate MiddleWaits(s: System) {
    && s.tasks.priority == map[0 := 1, 1 := 2, 2 := 3][0 := 2]
    && s.holder == map[0 := 0, 1 := 1] && 1 in s.Tenure(0) && !s.Blocked(2)
  }

  /** The middle task blocks on mutex 0, holding mutex 1. */
  lemma MiddleBlocks(s: System, top: nat) returns (run: seq<Step>, end: System)
    requires s == Rested(map[0 := 1, 1 := 2, 2 := 3])
    ensures Reaches(s, run, top, end) && !NoNestedBlocking(s, run, top) && MiddleWaits(end)
  {
    var s2;
    run, s2 := TwoTaken(s, top);
    end := Apply(s2, Block(1, 0), top);
    BlockParts(s2, 1, 0, top);
    run := Longer(s, run, s2, Block(1, 0), end, top);
  }

  /** The high task blocks on mutex 1. */
  lemma HighBlocks(s: System, top: nat) returns (s': System)
    requires MiddleWaits(s)
    ensures Enabled(s, Block(2, 1)) && s' == Apply(s, Block(2, 1), top) && !Boosted(s')
  {
    s' := Apply(s, Block(2, 1), top);
    BlockParts(s, 2, 1, top);
    assert 1 in s'.Tenure(0) && At(s'.tasks.priority, 1) == 3 && At(s'.tasks.priority, 0) == 2;
  }

  /** Inheritance does not follow a chain.  The low task holds mutex 0, the
      middle task holds mutex 1 and blocks on 0, the high task blocks on 1: the
      low task stays below the boosted middle task that waits for it. */
  lemma ChainIsNotFollowed(top: nat) returns (s: System, run: seq<Step>)
    requires top > 3
    ensures Start(s, top) && LegalRun(s, run, top) && !NoNestedBlocking(s, run, top)
    ensures !Boosted(Final(s, run, top))
  {
    var s3;
    s := Rested(map[0 := 1, 1 := 2, 2 := 3]);
    run, s3 := MiddleBlocks(s, top);
    var s4 := HighBlocks(s3, top);
    run := Longer(s, run, s3, Block(2, 1), s4, top);
  }

  /** A low task holds mutex 0; a task of higher priority has blocked on it. */
  ghost predicate OneWaits(s: System, top: nat) {
    && s.tasks == Tasks(map[0 := 2, 1 := 2, 2 := 2], map[0 := 1, 1 := 2, 2 := 2], map[0 := 1])
    && s.holder == map[0 := 0] && !s.Blocked(0) && !s.Blocked(2)
    && top > 3 && s.WaitingFor(0) == [Entry(top - 2, 1)]
  }

  ghost predicate TwoWait(s: System, top: nat) {
    && s.tasks == Tasks(map[0 := 2, 1 := 2, 2 := 2], map[0 := 1, 1 := 2, 2 := 2], map[0 := 1])
    && s.holder == map[0 := 0] && !s.Blocked(0)
    && top > 3 && s.WaitingFor(0) == [Entry(top - 2, 1), Entry(top - 2, 2)]
  }

  lemma FirstBlocks(s: System, top: nat) returns (run: seq<Step>, end: System)
    requires s == Rested(map[0 := 1, 1 := 2, 2 := 2]) && top > 3
    ensures Reaches(s, run, top, end) && NoNestedBlocking(s, run, top) && OneWaits(end, top)
  {
    var s1 := Apply(s, Take(0, 0), top);
    end := Apply(s1, Block(1, 0), top);
    assert end.tasks == Tasks(map[0 := 2, 1 := 2, 2 := 2], map[0 := 1, 1 := 2, 2 := 2], map[0 := 1]);
    assert end.WaitingFor(0) == [Entry(top - 2, 1)];
    run := Longer(s, [], s, Take(0, 0), s1, top);
    run := Longer(s, run, s1, Block(1, 0), end, top);
  }

  lemma SecondBlocks(s: System, top: nat) returns (s': System)
    requires OneWaits(s, top)
    ensures Enabled(s, Block(2, 0)) && s' == Apply(s, Block(2, 0), top) && TwoWait(s', top)
    ensures BlocksEmptyHanded(s, Block(2, 0))
  {
    s' := Apply(s, Block(2, 0), top);
    var e1, e2 := Entry(top - 2, 1), Entry(top - 2, 2);
    assert InsertSorted([e1], e2) == [e1, e2] by {
      var q := [e1];
      assert |q[1..]| == 0;
    }
    BlockIsQueued(s, 2, 0, s.tasks, e2, top);
  }

  /** The low task gives the mutex back, so that the first waiter wakes. */
  lemma LowGives(s: System, top: nat) returns (s': System)
    requires TwoWait(s, top)
    ensures Enabled(s, Give(0, 0)) && s' == Apply(s, Give(0, 0), top)
    ensures s'.WaitingFor(0) == [Entry(top - 2, 2)] && 0 !in s'.holder && !s'.Blocked(0)
    ensures At(s'.tasks.priority, 0) == 1 && At(s'.tasks.priority, 2) == 2
  {
    s' := Apply(s, Give(0, 0), top);
  }

  /** It takes the mutex again. */
  lemma LowTakesAgain(s: System, top: nat) returns (s': System)
    requires top > 3 && s.WaitingFor(0) == [Entry(top - 2, 2)] && 0 !in s.holder && !s.Blocked(0)
    requires At(s.tasks.priority, 0) == 1 && At(s.tasks.priority, 2) == 2
    ensures Enabled(s, Take(0, 0)) && s' == Apply(s, Take(0, 0), top)
    ensures Waits(s'.WaitingFor(0), 2) && 0 in s'.holder
    ensures At(s'.tasks.priority, s'.holder[0]) < At(s'.tasks.priority, 2)
  {
    s' := Apply(s, Take(0, 0), top);
    assert s'.WaitingFor(0)[0].owner == 2;
  }

  /** Tasks that were already waiting when the holder took the mutex are not
      counted: here a low task takes it ahead of a woken waiter and runs below
      the other one. */
  lemma EarlierWaitersAreForgotten(top: nat) returns (s: System, run: seq<Step>)
    requires top > 3
    ensures Start(s, top) && LegalRun(s, run, top) && NoNestedBlocking(s, run, top)
    ensures var f := Final(s, run, top);
            Waits(f.WaitingFor(0), 2) && 0 in f.holder && At(f.tasks.priority, f.holder[0]) < At(f.tasks.priority, 2)
  {
    var s2;
    s := Rested(map[0 := 1, 1 := 2, 2 := 2]);
    run, s2 := FirstBlocks(s, top);
    var s3 := SecondBlocks(s2, top);
    run := Longer(s, run, s2, Block(2, 0), s3, top);
    var s4 := LowGives(s3, top);
    var s5 := LowTakesAgain(s4, top);
    run := Longer(s, run, s3, Give(0, 0), s4, top);
    run := Longer(s, run, s4, Take(0, 0), s5, top);
  }
}
