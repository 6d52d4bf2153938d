/** The scheduler of tasks.c for one core: which list each task's state item is
    on, and which task a context switch picks.
 */
module Scheduler {
  import opened ListModel
  import opened Inheritance
  import SleepCalls
  import SleepClock
  import opened Wrappers

  /** The lists a state list item can be on. */
  datatype Place = Ready(priority: nat) | DelayedFirst | DelayedSecond | Suspended | Terminated

  /** pxReadyTasksLists, xDelayedTaskList1 and 2, xSuspendedTaskList, xTasksWaitingTermination. */
  datatype Lists = Lists(
    ready: seq<Ring<Task>>,
    delayedFirst: seq<Entry<Task>>,
    delayedSecond: seq<Entry<Task>>,
    suspended: seq<Task>,
    terminated: seq<Task>
  )

  function Items(l: Lists, place: Place): seq<Task> {
    match place
    case Ready(p) => if p < |l.ready| then l.ready[p].items else []
    case DelayedFirst => SleepClock.Owners(l.delayedFirst)
    case DelayedSecond => SleepClock.Owners(l.delayedSecond)
    case Suspended => l.suspended
    case Terminated => l.terminated
  }

  /** How often a task's state item is on a list. */
  function Times(l: Lists, place: Place, t: Task): nat {
    multiset(Items(l, place))[t]
  }

  function Lengths(rings: seq<Ring<Task>>): nat {
    if rings == [] then 0 else |rings[0].items| + Lengths(rings[1..])
  }

  function TotalLength(l: Lists): nat {
    Lengths(l.ready) + |l.delayedFirst| + |l.delayedSecond| + |l.suspended| + |l.terminated|
  }

  ghost predicate RingsValid(rings: seq<Ring<Task>>) {
    forall p :: 0 <= p < |rings| ==> rings[p].Valid()
  }

  function Position(s: seq<Task>, t: Task): (k: nat)
    requires t in s
    ensures k < |s| && s[k] == t
  {
    if s[0] == t then 0 else 1 + Position(s[1..], t)
  }

  /** uxListRemove of a state list item. */
  function TakenFrom(l: Lists, place: Place, t: Task): Lists
    requires t in Items(l, place) && RingsValid(l.ready)
  {
    var k := Position(Items(l, place), t);
    match place
    case Ready(p) => l.(ready := l.ready[p := l.ready[p].RemoveAt(k)])
    case DelayedFirst => l.(delayedFirst := l.delayedFirst[..k] + l.delayedFirst[k + 1..])
    case DelayedSecond => l.(delayedSecond := l.delayedSecond[..k] + l.delayedSecond[k + 1..])
    case Suspended => l.(suspended := l.suspended[..k] + l.suspended[k + 1..])
    case Terminated => l.(terminated := l.terminated[..k] + l.terminated[k + 1..])
  }

  /** Insertion of a state list item whose value is the given one: vListInsert
      on the delayed lists, vListInsertEnd on the others. */
  function PutOn(l: Lists, place: Place, t: Task, value: nat): Lists
    requires place.Ready? ==> place.priority < |l.ready|
    requires RingsValid(l.ready)
  {
    match place
    case Ready(p) => l.(ready := l.ready[p := l.ready[p].InsertEnd(t)])
    case DelayedFirst => l.(delayedFirst := InsertSorted(l.delayedFirst, Entry(value, t)))
    case DelayedSecond => l.(delayedSecond := InsertSorted(l.delayedSecond, Entry(value, t)))
    case Suspended => l.(suspended := l.suspended + [t])
    case Terminated => l.(terminated := l.terminated + [t])
  }

  /** Every state item is on the one list that its container field names. */
  ghost predicate Partition(l: Lists, container: map<Task, Place>) {
    forall place, t :: Times(l, place, t) == if t in container && container[t] == place then 1 else 0
  }

  /** A ready task is on the list of its current priority, and no list above
      the top ready priority has a task. */
  ghost predicate ReadyByPriority(l: Lists, container: map<Task, Place>, priority: Table, top: nat) {
    && top < |l.ready|
    && (forall p :: top < p < |l.ready| ==> l.ready[p].items == [])
    && (forall t :: t in container ==> At(priority, t) < |l.ready|)
    && (forall t :: t in container && container[t].Ready? ==> container[t].priority == At(priority, t))
  }

  /** The scheduler invariant, for a given number of tasks. */
  ghost predicate Fits(l: Lists, container: map<Task, Place>, priority: Table, top: nat, number: nat) {
    && RingsValid(l.ready) && Partition(l, container) && ReadyByPriority(l, container, priority, top)
    && number == TotalLength(l) == |container|
  }

  lemma {:induction false} LengthsUpdate(rings: seq<Ring<Task>>, p: nat, r: Ring<Task>)
    requires p < |rings|
    ensures Lengths(rings[p := r]) == Lengths(rings) - |rings[p].items| + |r.items|
  {
    if p == 0 {
      assert rings[p := r][1..] == rings[1..];
    } else {
      LengthsUpdate(rings[1..], p - 1, r);
      assert rings[p := r][1..] == rings[1..][p - 1 := r];
    }
  }

  lemma TakenOut<T>(s: seq<T>, k: nat)
    requires k < |s|
    ensures multiset(s[..k] + s[k + 1..]) == multiset(s) - multiset{s[k]}
  {
    assert s == s[..k] + [s[k]] + s[k + 1..];
  }

  lemma PutIn<T>(s: seq<T>, k: nat, x: T)
    requires k <= |s|
    ensures multiset(s[..k] + [x] + s[k..]) == multiset(s) + multiset{x}
  {
    assert s == s[..k] + s[k..];
  }

  lemma OwnersTakenOut(s: seq<Entry<Task>>, k: nat)
    requires k < |s|
    ensures SleepClock.Owners(s[..k] + s[k + 1..]) == SleepClock.Owners(s)[..k] + SleepClock.Owners(s)[k + 1..]
  {
  }

  lemma OwnersPutIn(s: seq<Entry<Task>>, e: Entry<Task>)
    ensures multiset(SleepClock.Owners(InsertSorted(s, e))) == multiset(SleepClock.Owners(s)) + multiset{e.owner}
    ensures |InsertSorted(s, e)| == |s| + 1
  {
    var k := InsertSortedPlace(s, e);
    OwnersInserted(s, k, e, InsertSorted(s, e));
    PutIn(SleepClock.Owners(s), k, e.owner);
  }

  lemma OwnersInserted(s: seq<Entry<Task>>, k: nat, e: Entry<Task>, r: seq<Entry<Task>>)
    requires k <= |s| && r == s[..k] + [e] + s[k..]
    ensures SleepClock.Owners(r) == SleepClock.Owners(s)[..k] + [e.owner] + SleepClock.Owners(s)[k..]
  {
  }

  lemma RemovedIsCut(l: Lists, place: Place, t: Task)
    requires t in Items(l, place) && RingsValid(l.ready)
    ensures var k, s := Position(Items(l, place), t), Items(l, place);
            Items(TakenFrom(l, place, t), place) == s[..k] + s[k + 1..]
  {
    var k := Position(Items(l, place), t);
    match place
    case Ready(p) =>
      assert TakenFrom(l, place, t).ready[p] == l.ready[p].RemoveAt(k);
    case DelayedFirst =>
      OwnersTakenOut(l.delayedFirst, k);
      assert TakenFrom(l, place, t).delayedFirst == l.delayedFirst[..k] + l.delayedFirst[k + 1..];
    case DelayedSecond =>
      OwnersTakenOut(l.delayedSecond, k);
      assert TakenFrom(l, place, t).delayedSecond == l.delayedSecond[..k] + l.delayedSecond[k + 1..];
    case Suspended =>
      assert TakenFrom(l, place, t).suspended == l.suspended[..k] + l.suspended[k + 1..];
    case Terminated =>
      assert TakenFrom(l, place, t).terminated == l.terminated[..k] + l.terminated[k + 1..];
  }

  lemma RemovedElsewhere(l: Lists, place: Place, t: Task, q: Place)
    requires t in Items(l, place) && RingsValid(l.ready) && q != place
    ensures Items(TakenFrom(l, place, t), q) == Items(l, q)
  {
  }

  /** Removal takes one item off its list and leaves every other list alone. */
  lemma RemovedItems(l: Lists, place: Place, t: Task)
    requires t in Items(l, place) && RingsValid(l.ready)
    ensures multiset(Items(TakenFrom(l, place, t), place)) == multiset(Items(l, place)) - multiset{t}
    ensures forall q | q != place :: Items(TakenFrom(l, place, t), q) == Items(l, q)
  {
    RemovedIsCut(l, place, t);
    TakenOut(Items(l, place), Position(Items(l, place), t));
    forall q | q != place
      ensures Items(TakenFrom(l, place, t), q) == Items(l, q)
    {
      RemovedElsewhere(l, place, t, q);
    }
  }

  lemma RemovedLength(l: Lists, place: Place, t: Task)
    requires t in Items(l, place) && RingsValid(l.ready)
    ensures TotalLength(TakenFrom(l, place, t)) == TotalLength(l) - 1
    ensures RingsValid(TakenFrom(l, place, t).ready) && |TakenFrom(l, place, t).ready| == |l.ready|
  {
    if place.Ready? {
      LengthsUpdate(l.ready, place.priority, l.ready[place.priority].RemoveAt(Position(Items(l, place), t)));
    }
  }

  lemma RingGains(r: Ring<Task>, t: Task)
    requires r.Valid()
    ensures multiset(r.InsertEnd(t).items) == multiset(r.items) + multiset{t}
    ensures r.InsertEnd(t).Valid() && |r.InsertEnd(t).items| == |r.items| + 1
  {
    if r.index != 0 {
      PutIn(r.items, r.index - 1, t);
    }
  }

  lemma AddedHere(l: Lists, place: Place, t: Task, value: nat)
    requires place.Ready? ==> place.priority < |l.ready|
    requires RingsValid(l.ready)
    ensures multiset(Items(PutOn(l, place, t, value), place)) == multiset(Items(l, place)) + multiset{t}
  {
    match place
    case Ready(p) => RingGains(l.ready[p], t);
    case DelayedFirst => OwnersPutIn(l.delayedFirst, Entry(value, t));
    case DelayedSecond => OwnersPutIn(l.delayedSecond, Entry(value, t));
    case Suspended =>
    case Terminated =>
  }

  lemma AddedElsewhere(l: Lists, place: Place, t: Task, value: nat, q: Place)
    requires place.Ready? ==> place.priority < |l.ready|
    requires RingsValid(l.ready) && q != place
    ensures Items(PutOn(l, place, t, value), q) == Items(l, q)
  {
  }

  lemma AddedLength(l: Lists, place: Place, t: Task, value: nat)
    requires place.Ready? ==> place.priority < |l.ready|
    requires RingsValid(l.ready)
    ensures TotalLength(PutOn(l, place, t, value)) == TotalLength(l) + 1
    ensures RingsValid(PutOn(l, place, t, value).ready) && |PutOn(l, place, t, value).ready| == |l.ready|
  {
    match place
    case Ready(p) => LengthsUpdate(l.ready, p, l.ready[p].InsertEnd(t));
    case DelayedFirst => OwnersPutIn(l.delayedFirst, Entry(value, t));
    case DelayedSecond => OwnersPutIn(l.delayedSecond, Entry(value, t));
    case Suspended =>
    case Terminated =>
  }

  lemma OnItsList(l: Lists, container: map<Task, Place>, t: Task)
    requires Partition(l, container) && t in container
    ensures t in Items(l, container[t])
  {
    assert Times(l, container[t], t) == 1;
  }

  /** Without one task, everything about the others is as it was. */
  lemma RemoveFits(l: Lists, container: map<Task, Place>, priority: Table, top: nat, number: nat, t: Task)
    requires Fits(l, container, priority, top, number) && t in container
    ensures t in Items(l, container[t]) && number > 0
    ensures Fits(TakenFrom(l, container[t], t), container - {t}, priority, top, number - 1)
  {
    OnItsList(l, container, t);
    var place := container[t];
    var l' := TakenFrom(l, place, t);
    RemovedItems(l, place, t);
    RemovedLength(l, place, t);
    assert (container - {t}).Keys == container.Keys - {t};
    forall q, u
      ensures Times(l', q, u) == if u in container - {t} && (container - {t})[u] == q then 1 else 0
    {
      assert Times(l, q, u) == if u in container && container[u] == q then 1 else 0;
    }
    forall p | top < p < |l'.ready|
      ensures l'.ready[p].items == []
    {
      assert Items(l, Ready(p)) == [];
      assert p < |l.ready|;
    }
  }

  lemma AddPartition(l: Lists, container: map<Task, Place>, t: Task, place: Place, value: nat)
    requires RingsValid(l.ready) && Partition(l, container) && t !in container
    requires place.Ready? ==> place.priority < |l.ready|
    ensures Partition(PutOn(l, place, t, value), container[t := place])
  {
    var l', c' := PutOn(l, place, t, value), container[t := place];
    forall q, u
      ensures Times(l', q, u) == if u in c' && c'[u] == q then 1 else 0
    {
      assert Times(l, q, u) == if u in container && container[u] == q then 1 else 0;
      if q == place {
        AddedHere(l, place, t, value);
      } else {
        AddedElsewhere(l, place, t, value, q);
      }
    }
  }

  function Raised(top: nat, place: Place): nat {
    if place.Ready? && top < place.priority then place.priority else top
  }

  lemma AddReady(l: Lists, container: map<Task, Place>, priority: Table, top: nat, t: Task, place: Place, value: nat)
    requires RingsValid(l.ready) && ReadyByPriority(l, container, priority, top)
    requires At(priority, t) < |l.ready| && (place.Ready? ==> place.priority == At(priority, t))
    ensures ReadyByPriority(PutOn(l, place, t, value), container[t := place], priority, Raised(top, place))
  {
    var l' := PutOn(l, place, t, value);
    forall p | Raised(top, place) < p < |l'.ready|
      ensures l'.ready[p].items == []
    {
      assert l'.ready[p] == l.ready[p];
    }
  }

  /** Another task comes in, at the place its priority asks for if it is ready. */
  lemma AddFits(l: Lists, container: map<Task, Place>, priority: Table, top: nat, number: nat, t: Task, place: Place,
                value: nat)
    requires Fits(l, container, priority, top, number) && t !in container
    requires At(priority, t) < |l.ready| && (place.Ready? ==> place.priority == At(priority, t))
    ensures Fits(PutOn(l, place, t, value), container[t := place], priority, Raised(top, place), number + 1)
  {
    AddPartition(l, container, t, place, value);
    AddReady(l, container, priority, top, t, place, value);
    AddedLength(l, place, t, value);
    OneMore(container, t, place);
  }

  lemma ReadyAdded(l: Lists, container: map<Task, Place>, priority: Table, top: nat, number: nat, t: Task)
    requires Fits(l, container, priority, top, number) && t !in container && At(priority, t) < |l.ready|
    ensures var place := Ready(At(priority, t));
            && Fits(PutOn(l, place, t, 0), container[t := place], priority, Raised(top, place), number + 1)
            && Appears(l, PutOn(l, place, t, 0), place, t, 0)
            && PutOn(l, place, t, 0).terminated == l.terminated
  {
    var place := Ready(At(priority, t));
    AddFits(l, container, priority, top, number, t, place, 0);
    PutOnAppears(l, place, t, 0);
  }

  lemma OneMore(container: map<Task, Place>, t: Task, place: Place)
    requires t !in container
    ensures |container[t := place]| == |container| + 1
  {
    assert container[t := place].Keys == container.Keys + {t};
  }

  /** The priority of a task that is on no ready list can change freely. */
  lemma PriorityFits(l: Lists, container: map<Task, Place>, priority: Table, priority': Table, top: nat, number: nat,
                     t: Task)
    requires Fits(l, container, priority, top, number) && (t in container ==> !container[t].Ready?)
    requires At(priority', t) < |l.ready| && forall u | u != t :: At(priority', u) == At(priority, u)
    ensures Fits(l, container, priority', top, number)
  {
  }

  /** A selection only moves the index of one ready list. */
  lemma SelectFits(l: Lists, container: map<Task, Place>, priority: Table, top: nat, number: nat, p: nat)
    requires Fits(l, container, priority, top, number)
    requires p <= top && l.ready[p].items != [] && forall q :: p < q < |l.ready| ==> l.ready[q].items == []
    ensures Fits(l.(ready := l.ready[p := l.ready[p].Next()]), container, priority, p, number)
  {
    var l' := l.(ready := l.ready[p := l.ready[p].Next()]);
    NextRotates(l.ready[p]);
    LengthsUpdate(l.ready, p, l.ready[p].Next());
    forall q, u
      ensures Times(l', q, u) == if u in container && container[u] == q then 1 else 0
    {
      assert Items(l', q) == Items(l, q);
      assert Times(l, q, u) == if u in container && container[u] == q then 1 else 0;
    }
  }

  /** On a list in the right place means of the list's priority. */
  lemma OnReadyList(l: Lists, container: map<Task, Place>, p: nat, t: Task)
    requires Partition(l, container) && p < |l.ready|
    ensures t in l.ready[p].items <==> t in container && container[t] == Ready(p)
  {
    assert Times(l, Ready(p), t) == if t in container && container[t] == Ready(p) then 1 else 0;
  }

  // ---------- The order of the lists

  /** Every list without one task, in unchanged order; ready lists in the order
      in which they are visited. */
  ghost predicate LeftOut(l: Lists, l': Lists, t: Task) {
    && RingsValid(l.ready) && RingsValid(l'.ready) && |l'.ready| == |l.ready|
    && (forall q :: 0 <= q < |l.ready| ==>
          l'.ready[q].VisitOrder() == SleepCalls.WithoutTask(l.ready[q].VisitOrder(), t))
    && l'.delayedFirst == SleepClock.Without(l.delayedFirst, t)
    && l'.delayedSecond == SleepClock.Without(l.delayedSecond, t)
    && l'.suspended == SleepCalls.WithoutTask(l.suspended, t)
    && l'.terminated == SleepCalls.WithoutTask(l.terminated, t)
  }

  /** A task comes behind all that are visited, the one under the index apart. */
  ghost predicate VisitedBehind(v: seq<Task>, v': seq<Task>, t: Task, atIndex: bool) {
    if atIndex then v != [] && v' == v[..|v| - 1] + [t] + v[|v| - 1..] else v' == v + [t]
  }

  /** An entry is in order, behind its equals. */
  ghost predicate PlacedInOrder(s: seq<Entry<Task>>, s': seq<Entry<Task>>, e: Entry<Task>) {
    (exists k :: InsertedAt(s, e, s', k)) && (Sorted(s) ==> Sorted(s'))
  }

  /** One more task on one list, and all other lists as they were. */
  ghost predicate Appears(l: Lists, l': Lists, place: Place, t: Task, value: nat) {
    && RingsValid(l.ready) && RingsValid(l'.ready) && |l'.ready| == |l.ready|
    && (forall q :: 0 <= q < |l.ready| && place != Ready(q) ==> l'.ready[q] == l.ready[q])
    && (place.Ready? ==>
          && place.priority < |l.ready|
          && VisitedBehind(l.ready[place.priority].VisitOrder(), l'.ready[place.priority].VisitOrder(), t,
                           l'.ready[place.priority].index != 0)
          && (l'.ready[place.priority].index == 0 <==> l.ready[place.priority].index == 0))
    && (if place == DelayedFirst then PlacedInOrder(l.delayedFirst, l'.delayedFirst, Entry(value, t))
        else l'.delayedFirst == l.delayedFirst)
    && (if place == DelayedSecond then PlacedInOrder(l.delayedSecond, l'.delayedSecond, Entry(value, t))
        else l'.delayedSecond == l.delayedSecond)
    && l'.suspended == l.suspended + (if place == Suspended then [t] else [])
    && l'.terminated == l.terminated + (if place == Terminated then [t] else [])
  }

  lemma PutOnAppears(l: Lists, place: Place, t: Task, value: nat)
    requires place.Ready? ==> place.priority < |l.ready|
    requires RingsValid(l.ready)
    ensures Appears(l, PutOn(l, place, t, value), place, t, value)
  {
    assert l.suspended + [] == l.suspended && l.terminated + [] == l.terminated;
    match place
    case Ready(p) => InsertEndVisitedLast(l.ready[p], t);
    case DelayedFirst => PlacedByInsert(l.delayedFirst, Entry(value, t));
    case DelayedSecond => PlacedByInsert(l.delayedSecond, Entry(value, t));
    case Suspended =>
    case Terminated =>
  }

  lemma PlacedByInsert(s: seq<Entry<Task>>, e: Entry<Task>)
    ensures PlacedInOrder(s, InsertSorted(s, e), e)
  {
    var k := InsertSortedPlace(s, e);
    if Sorted(s) {
      var k' := InsertSortedStable(s, e);
    }
  }

  lemma {:induction false} NotThere(s: seq<Task>, t: Task)
    requires t !in s
    ensures SleepCalls.WithoutTask(s, t) == s
  {
    if s != [] {
      NotThere(s[1..], t);
    }
  }

  lemma {:induction false} NoneThere(s: seq<Entry<Task>>, t: Task)
    requires t !in SleepClock.Owners(s)
    ensures SleepClock.Without(s, t) == s
  {
    if s != [] {
      assert SleepClock.Owners(s)[0] == s[0].owner && SleepClock.Owners(s)[1..] == SleepClock.Owners(s[1..]);
      NoneThere(s[1..], t);
    }
  }

  /** Where a task stands once, taking that place out leaves it out. */
  lemma {:induction false} OnceThere(s: seq<Task>, t: Task, k: nat)
    requires k < |s| && s[k] == t && multiset(s)[t] == 1
    ensures SleepCalls.WithoutTask(s, t) == s[..k] + s[k + 1..]
  {
    assert s == [s[0]] + s[1..];
    if k == 0 {
      NotThere(s[1..], t);
    } else {
      OnceThere(s[1..], t, k - 1);
      assert s[..k] == [s[0]] + s[1..][..k - 1];
    }
  }

  lemma OwnersAhead(s: seq<Entry<Task>>)
    requires s != []
    ensures SleepClock.Owners(s) == [s[0].owner] + SleepClock.Owners(s[1..])
  {
  }

  lemma {:induction false} OwnedOnce(s: seq<Entry<Task>>, t: Task, k: nat)
    requires k < |s| && s[k].owner == t && multiset(SleepClock.Owners(s))[t] == 1
    ensures SleepClock.Without(s, t) == s[..k] + s[k + 1..]
  {
    OwnersAhead(s);
    if k == 0 {
      NoneThere(s[1..], t);
    } else {
      assert s[0].owner != t by {
        assert SleepClock.Owners(s[1..])[k - 1] == t;
      }
      OwnedOnce(s[1..], t, k - 1);
      assert s[..k] == [s[0]] + s[1..][..k - 1];
    }
  }

  lemma SameContents(r: Ring<Task>)
    requires r.Valid()
    ensures multiset(r.VisitOrder()) == multiset(r.items)
  {
    assert r.items == r.items[..r.index] + r.items[r.index..];
  }

  lemma RingLeavesOut(r: Ring<Task>, t: Task, k: nat)
    requires r.Valid() && k < |r.items| && r.items[k] == t && multiset(r.items)[t] == 1
    ensures r.RemoveAt(k).Valid()
    ensures r.RemoveAt(k).VisitOrder() == SleepCalls.WithoutTask(r.VisitOrder(), t)
  {
    SameContents(r);
    RemoveKeepsVisitOrder(r, k);
    OnceThere(r.VisitOrder(), t, if r.index <= k then k - r.index else |r.items| - r.index + k);
  }

  lemma RingSpared(r: Ring<Task>, t: Task)
    requires r.Valid() && t !in r.items
    ensures SleepCalls.WithoutTask(r.VisitOrder(), t) == r.VisitOrder()
  {
    NotThere(r.VisitOrder(), t);
  }

  /** The lists on which a task is not. */
  lemma ElsewhereSpared(l: Lists, container: map<Task, Place>, t: Task, q: Place)
    requires Partition(l, container) && t in container && container[t] != q
    ensures t !in Items(l, q)
  {
    assert Times(l, q, t) == 0;
  }

  lemma ReadySpared(l: Lists, container: map<Task, Place>, t: Task, p: nat)
    requires Partition(l, container) && RingsValid(l.ready) && t in container && container[t] != Ready(p)
    requires p < |l.ready|
    ensures SleepCalls.WithoutTask(l.ready[p].VisitOrder(), t) == l.ready[p].VisitOrder()
  {
    ElsewhereSpared(l, container, t, Ready(p));
    RingSpared(l.ready[p], t);
  }

  lemma ReadyLeavesOut(l: Lists, container: map<Task, Place>, t: Task, q: nat)
    requires Partition(l, container) && RingsValid(l.ready) && t in container && q < |l.ready|
    requires t in Items(l, container[t])
    ensures var l' := TakenFrom(l, container[t], t);
            && q < |l'.ready| && l'.ready[q].Valid()
            && l'.ready[q].VisitOrder() == SleepCalls.WithoutTask(l.ready[q].VisitOrder(), t)
  {
    if container[t] == Ready(q) {
      assert Times(l, Ready(q), t) == 1;
      RingLeavesOut(l.ready[q], t, Position(l.ready[q].items, t));
    } else {
      ReadySpared(l, container, t, q);
    }
  }

  lemma DelayedLeaveOut(l: Lists, container: map<Task, Place>, t: Task)
    requires Partition(l, container) && RingsValid(l.ready) && t in container
    requires t in Items(l, container[t])
    ensures var l' := TakenFrom(l, container[t], t);
            && l'.delayedFirst == SleepClock.Without(l.delayedFirst, t)
            && l'.delayedSecond == SleepClock.Without(l.delayedSecond, t)
  {
    var k := Position(Items(l, container[t]), t);
    assert Times(l, container[t], t) == 1;
    if container[t] == DelayedFirst {
      OwnedOnce(l.delayedFirst, t, k);
    } else {
      ElsewhereSpared(l, container, t, DelayedFirst);
      NoneThere(l.delayedFirst, t);
    }
    if container[t] == DelayedSecond {
      OwnedOnce(l.delayedSecond, t, k);
    } else {
      ElsewhereSpared(l, container, t, DelayedSecond);
      NoneThere(l.delayedSecond, t);
    }
  }

  lemma PlainLeaveOut(l: Lists, container: map<Task, Place>, t: Task)
    requires Partition(l, container) && RingsValid(l.ready) && t in container
    requires t in Items(l, container[t])
    ensures var l' := TakenFrom(l, container[t], t);
            && l'.suspended == SleepCalls.WithoutTask(l.suspended, t)
            && l'.terminated == SleepCalls.WithoutTask(l.terminated, t)
  {
    var k := Position(Items(l, container[t]), t);
    assert Times(l, container[t], t) == 1;
    if container[t] == Suspended {
      OnceThere(l.suspended, t, k);
    } else {
      ElsewhereSpared(l, container, t, Suspended);
      NotThere(l.suspended, t);
    }
    if container[t] == Terminated {
      OnceThere(l.terminated, t, k);
    } else {
      ElsewhereSpared(l, container, t, Terminated);
      NotThere(l.terminated, t);
    }
  }

  lemma TakenLeavesOut(l: Lists, container: map<Task, Place>, t: Task)
    requires Partition(l, container) && RingsValid(l.ready) && t in container
    requires t in Items(l, container[t])
    ensures LeftOut(l, TakenFrom(l, container[t], t), t)
  {
    RemovedLength(l, container[t], t);
    forall q | 0 <= q < |l.ready|
      ensures TakenFrom(l, container[t], t).ready[q].VisitOrder() ==
              SleepCalls.WithoutTask(l.ready[q].VisitOrder(), t)
    {
      ReadyLeavesOut(l, container, t, q);
    }
    DelayedLeaveOut(l, container, t);
    PlainLeaveOut(l, container, t);
  }

  /** A task goes from wherever it is to one list: in each list the others keep
      their order, and in a ready list it comes behind all that are visited, the
      one under the index apart. */
  ghost predicate MovedTo(l: Lists, l': Lists, place: Place, t: Task, value: nat) {
    && RingsValid(l.ready) && RingsValid(l'.ready) && |l'.ready| == |l.ready|
    && (forall q :: 0 <= q < |l.ready| && place != Ready(q) ==>
          l'.ready[q].VisitOrder() == SleepCalls.WithoutTask(l.ready[q].VisitOrder(), t))
    && (place.Ready? ==>
          && place.priority < |l.ready|
          && VisitedBehind(SleepCalls.WithoutTask(l.ready[place.priority].VisitOrder(), t),
                           l'.ready[place.priority].VisitOrder(), t, l'.ready[place.priority].index != 0))
    && (if place == DelayedFirst then
          PlacedInOrder(SleepClock.Without(l.delayedFirst, t), l'.delayedFirst, Entry(value, t))
        else l'.delayedFirst == SleepClock.Without(l.delayedFirst, t))
    && (if place == DelayedSecond then
          PlacedInOrder(SleepClock.Without(l.delayedSecond, t), l'.delayedSecond, Entry(value, t))
        else l'.delayedSecond == SleepClock.Without(l.delayedSecond, t))
    && l'.suspended == SleepCalls.WithoutTask(l.suspended, t) + (if place == Suspended then [t] else [])
    && l'.terminated == SleepCalls.WithoutTask(l.terminated, t) + (if place == Terminated then [t] else [])
  }

  lemma MovedBy(l: Lists, mid: Lists, l': Lists, place: Place, t: Task, value: nat)
    requires LeftOut(l, mid, t) && Appears(mid, l', place, t, value)
    ensures MovedTo(l, l', place, t, value)
  {
  }

  function EmptyRings(n: nat): (r: seq<Ring<Task>>)
    ensures |r| == n && forall i :: 0 <= i < n ==> r[i] == Ring([], 0)
  {
    seq(n, _ => Ring([], 0))
  }

  lemma {:induction false} NoLists(n: nat)
    ensures Lengths(EmptyRings(n)) == 0
  {
    if n > 0 {
      NoLists(n - 1);
      assert EmptyRings(n)[1..] == EmptyRings(n - 1);
    }
  }

  lemma InitialFits(n: nat)
    requires n > 0
    ensures Fits(Lists(EmptyRings(n), [], [], [], []), map[], map[], 0, 0)
  {
    NoLists(n);
    var l := Lists(EmptyRings(n), [], [], [], []);
    forall q, u ensures Times(l, q, u) == 0 {}
  }

  ghost predicate BasesBelow(base: Table, container: map<Task, Place>, priorities: nat) {
    forall t :: t in container ==> At(base, t) < priorities
  }

  /** vTaskPrioritySet: an inherited priority stays until it is disinherited. */
  function WithPriority(ts: Tasks, t: Task, priority: nat): Tasks {
    if At(ts.base, t) == priority then ts
    else if At(ts.base, t) == At(ts.priority, t) then
      Tasks(ts.priority[t := priority], ts.base[t := priority], ts.held)
    else ts.(base := ts.base[t := priority])
  }

  /** Where the tasks are once a task has got its new priority. */
  function Rehoused(container: map<Task, Place>, t: Task, priority: nat): map<Task, Place>
    requires t in container
  {
    if container[t].Ready? then container[t := Ready(priority)] else container
  }

  function Max(a: nat, b: nat): nat {
    if a < b then b else a
  }

  lemma BackIn(container: map<Task, Place>, t: Task, place: Place)
    ensures (container - {t})[t := place] == container[t := place]
  {
  }

  class Kernel {
    const idle: Task                       // the idle task
    var lists: Lists
    var container: map<Task, Place>        // pvContainer of the state list items
    var tasks: Tasks
    var topReady: nat                      // uxTopReadyPriority
    var numberOfTasks: nat                 // uxCurrentNumberOfTasks
    var deletedWaiting: nat                // uxDeletedTasksWaitingCleanUp
    var current: Option<Task>              // pxCurrentTCB
    var running: bool                      // xSchedulerRunning
    var suspended: nat                     // uxSchedulerSuspended
    var yieldPending: bool                 // xYieldPending

    ghost predicate Valid()
      reads `lists, `container, `tasks, `topReady, `numberOfTasks, `deletedWaiting
    {
      && Fits(lists, container, tasks.priority, topReady, numberOfTasks)
      && deletedWaiting == |lists.terminated|
      && BasesBelow(tasks.base, container, |lists.ready|)
    }

    /** The idle task never leaves its ready list. */
    ghost predicate IdleReady()
      reads `container
    {
      idle in container && container[idle].Ready?
    }

    /** Between a removal and an insertion, one task is on no list. */
    ghost predicate OneOut(t: Task)
      reads `lists, `container, `tasks, `topReady, `numberOfTasks, `deletedWaiting
    {
      && numberOfTasks > 0 && t !in container
      && Fits(lists, container, tasks.priority, topReady, numberOfTasks - 1)
      && deletedWaiting == |lists.terminated|
      && BasesBelow(tasks.base, container, |lists.ready|)
    }

    constructor (priorities: nat, idle: Task)
      requires priorities > 0
      ensures Valid() && container == map[] && numberOfTasks == 0 && current == None && !running && suspended == 0
      ensures |lists.ready| == priorities && this.idle == idle
    {
      InitialFits(priorities);
      this.idle := idle;
      lists := Lists(EmptyRings(priorities), [], [], [], []);
      container, tasks := map[], Tasks(map[], map[], map[]);
      topReady, numberOfTasks, deletedWaiting, suspended := 0, 0, 0, 0;
      current, running, yieldPending := None, false, false;
    }

    /** uxListRemove. */
    method Remove(t: Task)
      requires Valid() && t in container && container[t] != Terminated
      modifies this`lists, this`container
      ensures OneOut(t) && container == old(container) - {t} && |lists.ready| == |old(lists).ready|
      ensures t in Items(old(lists), old(container)[t])
      ensures lists == TakenFrom(old(lists), old(container)[t], t) && LeftOut(old(lists), lists, t)
    {
      OnItsList(lists, container, t);
      TakenLeavesOut(lists, container, t);
      RemoveFits(lists, container, tasks.priority, topReady, numberOfTasks, t);
      RemovedLength(lists, container[t], t);
      lists := TakenFrom(lists, container[t], t);
      container := container - {t};
    }

    /** prvAddTaskToReadyList. */
    method AddTaskToReadyList(t: Task)
      requires OneOut(t) && At(tasks.priority, t) < |lists.ready| && At(tasks.base, t) < |lists.ready|
      modifies this`lists, this`container, this`topReady
      ensures Valid() && container == old(container)[t := Ready(At(tasks.priority, t))]
      ensures |lists.ready| == |old(lists).ready|
      ensures Appears(old(lists), lists, Ready(At(tasks.priority, t)), t, 0)
    {
      var p := At(tasks.priority, t);
      ReadyAdded(lists, container, tasks.priority, topReady, numberOfTasks - 1, t);
      if p > topReady {
        topReady := p;
      }
      lists := PutOn(lists, Ready(p), t, 0);
      container := container[t := Ready(p)];
    }

    /** vListInsert or vListInsertEnd on a delayed list or the suspended list. */
    method AddTo(place: Place, t: Task, value: nat)
      requires place == DelayedFirst || place == DelayedSecond || place == Suspended
      requires OneOut(t) && At(tasks.priority, t) < |lists.ready| && At(tasks.base, t) < |lists.ready|
      modifies this`lists, this`container
      ensures Valid() && container == old(container)[t := place]
      ensures |lists.ready| == |old(lists).ready|
      ensures Appears(old(lists), lists, place, t, value)
    {
      PutOnAppears(lists, place, t, value);
      AddFits(lists, container, tasks.priority, topReady, numberOfTasks - 1, t, place, value);
      lists := PutOn(lists, place, t, value);
      container := container[t := place];
    }

    /** A new task is counted, and is on no list yet. */
    method Enter(t: Task, priority: nat)
      requires Valid() && t !in container && priority < |lists.ready|
      modifies this`numberOfTasks, this`tasks
      ensures OneOut(t) && numberOfTasks == old(numberOfTasks) + 1
      ensures At(tasks.priority, t) == priority == At(tasks.base, t) && At(tasks.held, t) == 0
    {
      PriorityFits(lists, container, tasks.priority, tasks.priority[t := priority], topReady, numberOfTasks, t);
      tasks := Tasks(tasks.priority[t := priority], tasks.base[t := priority], tasks.held[t := 0]);
      numberOfTasks := numberOfTasks + 1;
    }

    /** The first task of all is the current one, and before the scheduler runs
        the latest of the highest priority. */
    method ChooseCurrent(t: Task)
      modifies this`current
      ensures current == if old(current) == None ||
                            (!running && At(tasks.priority, old(current).value) <= At(tasks.priority, t))
                         then Some(t) else old(current)
    {
      if current == None {
        current := Some(t);
      } else if !running && At(tasks.priority, current.value) <= At(tasks.priority, t) {
        current := Some(t);
      }
    }

    /** vAddNewTaskToCurrentReadyList. */
    method AddNewTask(t: Task, priority: nat) returns (yield_: bool)
      requires Valid() && t !in container && priority < |lists.ready|
      modifies this`lists, this`container, this`topReady, this`numberOfTasks, this`current, this`tasks
      ensures Valid() && container == old(container)[t := Ready(priority)]
      ensures numberOfTasks == old(numberOfTasks) + 1 && Appears(old(lists), lists, Ready(priority), t, 0)
      ensures At(tasks.priority, t) == priority == At(tasks.base, t) && At(tasks.held, t) == 0
      ensures current == if old(current) == None ||
                            (!running && At(tasks.priority, old(current).value) <= priority)
                         then Some(t) else old(current)
      ensures yield_ <==> running && At(tasks.priority, current.value) < priority
    {
      Enter(t, priority);
      ChooseCurrent(t);
      AddTaskToReadyList(t);
      yield_ := running && At(tasks.priority, current.value) < At(tasks.priority, t);
    }

    /** A task leaves a delayed list or the suspended list, or is moved to the
        back of its ready list: uxListRemove and prvAddTaskToReadyList. */
    method MakeReady(t: Task)
      requires Valid() && t in container && container[t] != Terminated
      modifies this`lists, this`container, this`topReady
      ensures Valid() && container == old(container)[t := Ready(At(tasks.priority, t))]
      ensures numberOfTasks == old(numberOfTasks)
      ensures MovedTo(old(lists), lists, Ready(At(tasks.priority, t)), t, 0)
    {
      assert At(tasks.priority, t) < |lists.ready| && At(tasks.base, t) < |lists.ready|;
      ghost var before := lists;
      Remove(t);
      ghost var mid := lists;
      AddTaskToReadyList(t);
      MovedBy(before, mid, lists, Ready(At(tasks.priority, t)), t, 0);
      BackIn(old(container), t, Ready(At(tasks.priority, t)));
    }

    method Move(t: Task, place: Place, value: nat)
      requires Valid() && t in container && container[t] != Terminated
      requires place == DelayedFirst || place == DelayedSecond || place == Suspended
      modifies this`lists, this`container
      ensures Valid() && container == old(container)[t := place] && MovedTo(old(lists), lists, place, t, value)
    {
      assert At(tasks.priority, t) < |lists.ready| && At(tasks.base, t) < |lists.ready|;
      ghost var before := lists;
      Remove(t);
      ghost var mid := lists;
      AddTo(place, t, value);
      MovedBy(before, mid, lists, place, t, value);
      BackIn(old(container), t, place);
    }

    /** The list part of prvAddCurrentTaskToDelayedList. */
    method DelayCurrent(place: Place, value: nat)
      requires Valid() && current.Some? && current.value in container && container[current.value] != Terminated
      requires place == DelayedFirst || place == DelayedSecond || place == Suspended
      modifies this`lists, this`container
      ensures Valid() && container == old(container)[current.value := place]
      ensures MovedTo(old(lists), lists, place, current.value, value)
      ensures old(IdleReady()) && current.value != idle ==> IdleReady()
    {
      var t := current.value;
      Move(t, place, value);
    }

    /** vTaskSuspend.  Before the scheduler runs, vTaskSwitchContext returns at
        once, so the suspended task stays the current one unless it was the
        last that was not suspended. */
    method Suspend(t: Task)
      requires Valid() && t in container && container[t] != Terminated
      modifies this`lists, this`container, this`current
      ensures Valid() && container == old(container)[t := Suspended] && MovedTo(old(lists), lists, Suspended, t, 0)
      ensures old(IdleReady()) && t != idle ==> IdleReady()
      ensures current == if old(current) == Some(t) && !running && |lists.suspended| == numberOfTasks
                         then None else old(current)
    {
      Move(t, Suspended, 0);
      ForgetCurrent(t);
    }

    /** Before the scheduler runs, the current task is cleared with the last task
        that was not suspended. */
    method ForgetCurrent(t: Task)
      modifies this`current
      ensures current == if old(current) == Some(t) && !running && |lists.suspended| == numberOfTasks
                         then None else old(current)
    {
      if current == Some(t) && !running && |lists.suspended| == numberOfTasks {
        current := None;
      }
    }

    /** vTaskResume; the event list item of a task that waits for an event, or
        that an interrupt has resumed already, is on a list. */
    method Resume(t: Task, eventItemListed: bool)
      requires Valid() && t in container
      modifies this`lists, this`container, this`topReady
      ensures Valid()
      ensures container == if current != Some(t) && old(container)[t] == Suspended && !eventItemListed
                           then old(container)[t := Ready(At(tasks.priority, t))] else old(container)
      ensures if current != Some(t) && old(container)[t] == Suspended && !eventItemListed
              then MovedTo(old(lists), lists, Ready(At(tasks.priority, t)), t, 0) else lists == old(lists)
    {
      if current != Some(t) && container[t] == Suspended && !eventItemListed {
        MakeReady(t);
      }
    }

    /** vTaskDelete.  A task that deletes itself stays counted, on the
        termination list, until the idle task cleans up. */
    method Delete(t: Task)
      requires Valid() && t in container && container[t] != Terminated
      modifies this`lists, this`container, this`numberOfTasks, this`deletedWaiting
      ensures Valid()
      ensures old(IdleReady()) && t != idle ==> IdleReady()
      ensures current == Some(t) ==>
                && container == old(container)[t := Terminated] && numberOfTasks == old(numberOfTasks)
                && deletedWaiting == old(deletedWaiting) + 1 && MovedTo(old(lists), lists, Terminated, t, 0)
      ensures current != Some(t) ==>
                && container == old(container) - {t} && numberOfTasks == old(numberOfTasks) - 1
                && deletedWaiting == old(deletedWaiting) && LeftOut(old(lists), lists, t)
    {
      if current == Some(t) {
        DeleteSelf(t);
      } else {
        DeleteOther(t);
      }
    }

    method DeleteOther(t: Task)
      requires Valid() && t in container && container[t] != Terminated
      modifies this`lists, this`container, this`numberOfTasks
      ensures Valid() && container == old(container) - {t} && numberOfTasks == old(numberOfTasks) - 1
      ensures LeftOut(old(lists), lists, t)
    {
      Remove(t);
      numberOfTasks := numberOfTasks - 1;
    }

    method DeleteSelf(t: Task)
      requires Valid() && t in container && container[t] != Terminated
      modifies this`lists, this`container, this`deletedWaiting
      ensures Valid() && container == old(container)[t := Terminated]
      ensures deletedWaiting == old(deletedWaiting) + 1 && MovedTo(old(lists), lists, Terminated, t, 0)
    {
      assert At(tasks.priority, t) < |lists.ready| && At(tasks.base, t) < |lists.ready|;
      ghost var before := lists;
      Remove(t);
      ghost var mid := lists;
      AddTerminated(t);
      MovedBy(before, mid, lists, Terminated, t, 0);
      BackIn(old(container), t, Terminated);
    }

    /** The end of the termination list, and one more task to clean up. */
    method AddTerminated(t: Task)
      requires OneOut(t) && At(tasks.priority, t) < |lists.ready| && At(tasks.base, t) < |lists.ready|
      modifies this`lists, this`container, this`deletedWaiting
      ensures Valid() && container == old(container)[t := Terminated]
      ensures deletedWaiting == old(deletedWaiting) + 1 && Appears(old(lists), lists, Terminated, t, 0)
    {
      PutOnAppears(lists, Terminated, t, 0);
      AddFits(lists, container, tasks.priority, topReady, numberOfTasks - 1, t, Terminated, 0);
      lists := PutOn(lists, Terminated, t, 0);
      container := container[t := Terminated];
      deletedWaiting := deletedWaiting + 1;
    }

    /** prvCheckTasksWaitingTermination: afterwards no deleted task is counted. */
    method CleanUp()
      requires Valid()
      modifies this`lists, this`container, this`numberOfTasks, this`deletedWaiting
      ensures Valid() && deletedWaiting == 0 && lists.terminated == []
      ensures numberOfTasks == old(numberOfTasks) - old(deletedWaiting)
      ensures old(IdleReady()) ==> IdleReady()
      ensures lists == old(lists).(terminated := [])
    {
      while deletedWaiting > 0
        invariant Valid() && numberOfTasks - deletedWaiting == old(numberOfTasks) - old(deletedWaiting)
        invariant old(IdleReady()) ==> IdleReady()
        invariant lists == old(lists).(terminated := lists.terminated)
      {
        CleanUpFirst();
      }
    }

    /** The first deleted task is taken off its list and uncounted. */
    method CleanUpFirst()
      requires Valid() && deletedWaiting > 0
      modifies this`lists, this`container, this`numberOfTasks, this`deletedWaiting
      ensures Valid() && numberOfTasks == old(numberOfTasks) - 1 && deletedWaiting == old(deletedWaiting) - 1
      ensures old(IdleReady()) ==> IdleReady()
      ensures lists == old(lists).(terminated := old(lists).terminated[1..])
    {
      var t := lists.terminated[0];
      TerminatedHead(lists, container);
      RemoveFits(lists, container, tasks.priority, topReady, numberOfTasks, t);
      lists := TakenFrom(lists, Terminated, t);
      container := container - {t};
      numberOfTasks := numberOfTasks - 1;
      deletedWaiting := deletedWaiting - 1;
    }

    method AdoptTasks(t: Task, ts: Tasks)
      requires OneOut(t) && At(ts.priority, t) < |lists.ready|
      requires forall u | u != t ::
        At(ts.priority, u) == At(tasks.priority, u) && At(ts.base, u) == At(tasks.base, u)
      modifies this`tasks
      ensures OneOut(t) && tasks == ts
    {
      PriorityFits(lists, container, tasks.priority, ts.priority, topReady, numberOfTasks - 1, t);
      tasks := ts;
    }

    /** A ready task whose priority has changed has moved to the back of another
        list, and otherwise no list has changed. */
    ghost predicate OnListOf(l: Lists, c: map<Task, Place>, ts: Tasks, t: Task)
      reads `lists, `tasks
    {
      if t in c && c[t].Ready? && At(tasks.priority, t) != At(ts.priority, t) then
        MovedTo(l, lists, Ready(At(tasks.priority, t)), t, 0)
      else lists == l
    }

    /** A priority changes.  A task on a ready list goes to the back of the list
        of its new priority; any other task stays where it is. */
    method ChangePriority(t: Task, ts: Tasks)
      requires Valid() && t in container && container[t] != Terminated
      requires At(ts.priority, t) < |lists.ready| && At(ts.base, t) < |lists.ready|
      requires forall u | u != t ::
        At(ts.priority, u) == At(tasks.priority, u) && At(ts.base, u) == At(tasks.base, u)
      modifies this`lists, this`container, this`topReady, this`tasks
      ensures Valid() && tasks == ts && |lists.ready| == |old(lists).ready|
      ensures container == Rehoused(old(container), t, At(ts.priority, t))
      ensures if old(container)[t].Ready? then MovedTo(old(lists), lists, Ready(At(ts.priority, t)), t, 0)
              else lists == old(lists)
    {
      if container[t] == Ready(At(tasks.priority, t)) {
        Requeue(t, ts);
      } else {
        PriorityFits(lists, container, tasks.priority, ts.priority, topReady, numberOfTasks, t);
        tasks := ts;
      }
    }

    method Requeue(t: Task, ts: Tasks)
      requires Valid() && t in container && container[t].Ready?
      requires At(ts.priority, t) < |lists.ready| && At(ts.base, t) < |lists.ready|
      requires forall u | u != t ::
        At(ts.priority, u) == At(tasks.priority, u) && At(ts.base, u) == At(tasks.base, u)
      modifies this`lists, this`container, this`topReady, this`tasks
      ensures Valid() && tasks == ts && container == old(container)[t := Ready(At(ts.priority, t))]
      ensures MovedTo(old(lists), lists, Ready(At(ts.priority, t)), t, 0)
    {
      ghost var before := lists;
      Remove(t);
      AdoptTasks(t, ts);
      ghost var mid := lists;
      AddTaskToReadyList(t);
      MovedBy(before, mid, lists, Ready(At(ts.priority, t)), t, 0);
      BackIn(old(container), t, Ready(At(tasks.priority, t)));
    }

    /** vTaskPrioritySet. */
    method PrioritySet(t: Task, priority: nat) returns (yield_: bool)
      requires Valid() && t in container && container[t] != Terminated && priority < |lists.ready|
      requires current.Some?
      modifies this`lists, this`container, this`topReady, this`tasks
      ensures Valid() && At(tasks.base, t) == priority && tasks.held == old(tasks).held
      ensures At(tasks.priority, t) ==
              if At(old(tasks).priority, t) == At(old(tasks).base, t) then priority   // nothing inherited
              else At(old(tasks).priority, t)
      ensures forall u | u != t ::
                At(tasks.priority, u) == At(old(tasks).priority, u) && At(tasks.base, u) == At(old(tasks).base, u)
      ensures if At(old(tasks).base, t) == priority || !old(container)[t].Ready? then lists == old(lists)
              else MovedTo(old(lists), lists, Ready(At(tasks.priority, t)), t, 0)
      ensures container == if At(old(tasks).base, t) == priority then old(container)
                           else Rehoused(old(container), t, At(tasks.priority, t))
      ensures yield_ <==>
                if current == Some(t) then priority < At(old(tasks).base, t)
                else priority > At(old(tasks).base, t) && priority >= At(old(tasks).priority, current.value)
    {
      yield_ := false;
      if At(tasks.base, t) != priority {
        if priority > At(tasks.base, t) {
          if current != Some(t) && priority >= At(tasks.priority, current.value) {
            yield_ := true;
          }
        } else if current == Some(t) {
          yield_ := true;
        }
        assert At(tasks.priority, t) < |lists.ready| && At(tasks.base, t) < |lists.ready|;
        ChangePriority(t, WithPriority(tasks, t, priority));
      }
    }

    /** xTaskPriorityInherit, called by the task that is about to block. */
    method PriorityInherit(holder: Option<Task>) returns (occurred: bool)
      requires Valid() && current.Some? && current.value in container
      requires holder.Some? ==> holder.value in container && container[holder.value] != Terminated
      modifies this`lists, this`container, this`topReady, this`tasks
      ensures Valid()
      ensures holder == None ==> !occurred && tasks == old(tasks) && container == old(container)
      ensures holder.Some? ==>
                && tasks == Inherit(old(tasks), holder.value, current.value)
                && (occurred <==> At(old(tasks).base, holder.value) < At(old(tasks).priority, current.value)
                                  || At(old(tasks).priority, holder.value) < At(old(tasks).priority, current.value))
                && At(tasks.priority, holder.value) ==
                   Max(At(old(tasks).priority, holder.value), At(old(tasks).priority, current.value))
                && OnListOf(old(lists), old(container), old(tasks), holder.value)
                && container == Rehoused(old(container), holder.value, At(tasks.priority, holder.value))
    {
      occurred := false;
      if holder.Some? {
        var h := holder.value;
        assert At(tasks.priority, current.value) < |lists.ready| && At(tasks.base, h) < |lists.ready|;
        if At(tasks.priority, h) < At(tasks.priority, current.value) {
          ChangePriority(h, Inherit(tasks, h, current.value));
          occurred := true;
        } else {
          AlreadyHoused(lists, container, tasks.priority, topReady, numberOfTasks, h);
          if At(tasks.base, h) < At(tasks.priority, current.value) {
            occurred := true;
          }
        }
      }
    }

    /** xTaskPriorityDisinherit, called by the holder as it gives a mutex back. */
    method PriorityDisinherit(holder: Option<Task>) returns (yield_: bool)
      requires Valid()
      requires holder.Some? ==> current == holder && holder.value in container &&
                                container[holder.value].Ready? && At(tasks.held, holder.value) > 0
      modifies this`lists, this`container, this`topReady, this`tasks
      ensures Valid()
      ensures holder == None ==> !yield_ && tasks == old(tasks) && container == old(container)
      ensures holder.Some? ==>
                && tasks == Disinherit(old(tasks), holder.value)
                && At(tasks.held, holder.value) == At(old(tasks).held, holder.value) - 1
                && At(tasks.priority, holder.value) ==
                   (if At(tasks.held, holder.value) == 0 then At(tasks.base, holder.value)
                    else At(old(tasks).priority, holder.value))
                && OnListOf(old(lists), old(container), old(tasks), holder.value)
                && container == Rehoused(old(container), holder.value, At(tasks.priority, holder.value))
                && (yield_ <==> At(tasks.priority, holder.value) != At(old(tasks).priority, holder.value))
    {
      yield_ := false;
      if holder.Some? {
        var h := holder.value;
        var ts := Disinherit(tasks, h);
        assert At(tasks.base, h) < |lists.ready|;
        if At(tasks.priority, h) != At(tasks.base, h) && At(tasks.held, h) == 1 {
          ChangePriority(h, ts);
          yield_ := true;
        } else {
          AlreadyHoused(lists, container, tasks.priority, topReady, numberOfTasks, h);
          tasks := ts;
        }
      }
    }

    /** vTaskPriorityDisinheritAfterTimeout. */
    method PriorityDisinheritAfterTimeout(holder: Option<Task>, highestWaiting: nat)
      requires Valid() && highestWaiting < |lists.ready|
      requires holder.Some? ==> holder.value in container && container[holder.value] != Terminated &&
                                At(tasks.held, holder.value) > 0
      modifies this`lists, this`container, this`topReady, this`tasks
      ensures Valid()
      ensures holder == None ==> tasks == old(tasks) && container == old(container)
      ensures holder.Some? ==>
                && tasks == DisinheritAfterTimeout(old(tasks), holder.value, highestWaiting)
                && At(tasks.priority, holder.value) ==
                   (if At(tasks.held, holder.value) == 1 then Max(At(tasks.base, holder.value), highestWaiting)
                    else At(old(tasks).priority, holder.value))
                && OnListOf(old(lists), old(container), old(tasks), holder.value)
                && container == Rehoused(old(container), holder.value, At(tasks.priority, holder.value))
    {
      if holder.Some? {
        var h := holder.value;
        assert At(tasks.base, h) < |lists.ready|;
        AlreadyHoused(lists, container, tasks.priority, topReady, numberOfTasks, h);
        var p := if At(tasks.base, h) < highestWaiting then highestWaiting else At(tasks.base, h);
        if At(tasks.priority, h) != p && At(tasks.held, h) == 1 {
          ChangePriority(h, tasks.(priority := tasks.priority[h := p]));
        }
      }
    }

    /** The search from the top ready priority down for a list with a task. */
    method SearchDown() returns (top: nat)
      requires Valid() && IdleReady()
      ensures top <= topReady < |lists.ready| && lists.ready[top].items != []
      ensures forall q :: top < q < |lists.ready| ==> lists.ready[q].items == []
    {
      top := topReady;
      ReadyBelowTop(lists, container, tasks.priority, topReady, numberOfTasks, idle);
      while lists.ready[top].items == []
        invariant container[idle].priority <= top <= topReady
        invariant forall q :: top < q < |lists.ready| ==> lists.ready[q].items == []
        decreases top
      {
        top := top - 1;
      }
    }

    /** taskSELECT_HIGHEST_PRIORITY_TASK.  The search from the top ready priority
        down ends at a list with a task before the priority could pass zero,
        because the idle task is ready, and the task picked has the highest
        priority of all that are ready.  It is the first in the visiting order
        of its list. */
    method SelectHighestPriorityTask()
      requires Valid() && IdleReady()
      modifies this`lists, this`topReady, this`current
      ensures Valid() && topReady < |old(lists).ready|
      ensures old(lists).ready[topReady].Valid() && old(lists).ready[topReady].items != []
      ensures current == Some(old(lists).ready[topReady].VisitOrder()[0])
      ensures lists == old(lists).(ready := old(lists).ready[topReady := old(lists).ready[topReady].Next()])
      ensures current.value in container && container[current.value] == Ready(topReady)
      ensures forall t :: t in container && container[t].Ready? ==>
                            At(tasks.priority, t) <= At(tasks.priority, current.value)
    {
      var top := SearchDown();
      NextRotates(lists.ready[top]);
      SelectFits(lists, container, tasks.priority, topReady, numberOfTasks, top);
      var next := lists.ready[top].items[lists.ready[top].NextIndex() - 1];
      SelectedIsHighest(lists, container, tasks.priority, topReady, numberOfTasks, top, next);
      current := Some(next);
      lists := lists.(ready := lists.ready[top := lists.ready[top].Next()]);
      topReady := top;
    }

    /** vTaskSwitchContext: nothing before the scheduler runs, a pending yield
        while it is suspended, else a task of the highest ready priority. */
    method SwitchContext()
      requires Valid() && IdleReady()
      modifies this`lists, this`topReady, this`current, this`yieldPending
      ensures Valid() && IdleReady()
      ensures !running || suspended > 0 ==>
                lists == old(lists) && current == old(current) && yieldPending == (running || old(yieldPending))
      ensures running && suspended == 0 ==>
                && !yieldPending && current.Some?
                && current.value in container && container[current.value] == Ready(topReady)
                && forall t :: t in container && container[t].Ready? ==>
                                 At(tasks.priority, t) <= At(tasks.priority, current.value)
    {
      if !running {
        return;
      } else if suspended > 0 {
        yieldPending := true;
      } else {
        yieldPending := false;
        SelectHighestPriorityTask();
      }
    }
  }

  lemma AlreadyHoused(l: Lists, container: map<Task, Place>, priority: Table, top: nat, number: nat, t: Task)
    requires Fits(l, container, priority, top, number) && t in container
    ensures Rehoused(container, t, At(priority, t)) == container
  {
  }

  lemma TerminatedHead(l: Lists, container: map<Task, Place>)
    requires Partition(l, container) && l.terminated != []
    ensures l.terminated[0] in container && container[l.terminated[0]] == Terminated
    ensures Position(l.terminated, l.terminated[0]) == 0
  {
    assert Times(l, Terminated, l.terminated[0]) > 0;
  }

  lemma ReadyBelowTop(l: Lists, container: map<Task, Place>, priority: Table, top: nat, number: nat, t: Task)
    requires Fits(l, container, priority, top, number) && t in container && container[t].Ready?
    ensures At(priority, t) == container[t].priority <= top
    ensures l.ready[container[t].priority].items != []
  {
    OnReadyList(l, container, container[t].priority, t);
  }

  /** Everything ready is on a list that is not above the first one found. */
  lemma SelectedIsHighest(l: Lists, container: map<Task, Place>, priority: Table, top: nat, number: nat, p: nat,
                          next: Task)
    requires Fits(l, container, priority, top, number)
    requires p < |l.ready| && next in l.ready[p].items && forall q :: p < q < |l.ready| ==> l.ready[q].items == []
    ensures next in container && container[next] == Ready(p) && At(priority, next) == p
    ensures forall t :: t in container && container[t].Ready? ==> At(priority, t) <= p
  {
    OnReadyList(l, container, p, next);
    forall t | t in container && container[t].Ready?
      ensures At(priority, t) <= p
    {
      ReadyBelowTop(l, container, priority, top, number, t);
    }
  }
}
