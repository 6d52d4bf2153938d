/** Event groups: bits that tasks set, clear and wait for (event_groups.c).

    The bits of a group, and the bits a task waits for, are sets of bit numbers.
    An item value is a record; ItemValues says how the kernel packs one into a
    32-bit word.
 */
module ItemValues {

  const CLEAR_EVENTS_ON_EXIT: bv32 := 0x01000000
  const UNBLOCKED_DUE_TO_BIT_SET: bv32 := 0x02000000
  const WAIT_FOR_ALL_BITS: bv32 := 0x04000000
  const CONTROL_BYTES: bv32 := 0xff000000
  const VALUE_IN_USE: bv32 := 0x80000000   // taskEVENT_LIST_ITEM_VALUE_IN_USE

  function WaitValue(waitFor: bv32, clear: bool, all: bool): bv32 {
    waitFor | (if clear then CLEAR_EVENTS_ON_EXIT else 0) | (if all then WAIT_FOR_ALL_BITS else 0) | VALUE_IN_USE
  }

  function ReleaseValue(bits: bv32): bv32 {
    bits | UNBLOCKED_DUE_TO_BIT_SET | VALUE_IN_USE
  }

  /** The control bits stay apart from the event bits and from each other. */
  lemma WaitValueDecodes(waitFor: bv32, clear: bool, all: bool)
    requires waitFor & CONTROL_BYTES == 0
    ensures WaitValue(waitFor, clear, all) & !CONTROL_BYTES == waitFor
    ensures WaitValue(waitFor, clear, all) & CLEAR_EVENTS_ON_EXIT != 0 <==> clear
    ensures WaitValue(waitFor, clear, all) & WAIT_FOR_ALL_BITS != 0 <==> all
    ensures WaitValue(waitFor, clear, all) & UNBLOCKED_DUE_TO_BIT_SET == 0
  {
  }

  lemma ReleaseValueDecodes(bits: bv32)
    requires bits & CONTROL_BYTES == 0
    ensures ReleaseValue(bits) & !CONTROL_BYTES == bits && ReleaseValue(bits) & UNBLOCKED_DUE_TO_BIT_SET != 0
  {
  }
}

module EventGroups {
  import opened Wrappers

  type Task = nat
  type Bits = set<nat>

  /** An event list item value: event bits and control bits. */
  datatype Value = Value(bits: Bits, clearOnExit: bool, unblocked: bool, waitForAll: bool)

  datatype Item = Item(value: Value, task: Task)

  /** prvTestWaitCondition. */
  predicate TestWaitCondition(current: Bits, waitFor: Bits, all: bool) {
    if all then current * waitFor == waitFor else current * waitFor != {}
  }

  predicate Met(bits: Bits, value: Value) {
    TestWaitCondition(bits, value.bits, value.waitForAll)
  }

  /** The value of a task that blocks, and of one that is released. */
  function Waiting(waitFor: Bits, clear: bool, all: bool): Value {
    Value(waitFor, clear, false, all)
  }

  function Releasing(bits: Bits): Value {
    Value(bits, false, true, false)
  }

  /** The bits, the tasks on the event list, and the tasks taken off it that
      have not run since, with their item values. */
  datatype Group = Group(bits: Bits, waiting: seq<Item>, woken: seq<Item>)

  /** The waiters that the bits do not release, in order. */
  function Left(q: seq<Item>, bits: Bits): (r: seq<Item>) {
    if q == [] then []
    else
      var rest, last := Left(q[..|q| - 1], bits), q[|q| - 1];
      if Met(bits, last.value) then rest else rest + [last]
  }

  /** The waiters that the bits release, with their new item values. */
  function Released(q: seq<Item>, bits: Bits): seq<Item> {
    if q == [] then []
    else
      var rest, last := Released(q[..|q| - 1], bits), q[|q| - 1];
      if Met(bits, last.value) then rest + [Item(Releasing(bits), last.task)] else rest
  }

  /** The bits that released waiters have asked to be cleared. */
  function ToClear(q: seq<Item>, bits: Bits): Bits {
    if q == [] then {}
    else
      var rest, last := ToClear(q[..|q| - 1], bits), q[|q| - 1].value;
      if Met(bits, last) && last.clearOnExit then rest + last.bits else rest
  }

  /** The effect of xEventGroupSetBits. */
  function WithSet(g: Group, set_: Bits): Group {
    var b := g.bits + set_;
    Group(b - ToClear(g.waiting, b), Left(g.waiting, b), g.woken + Released(g.waiting, b))
  }

  lemma {:induction false} LeftExactly(q: seq<Item>, bits: Bits)
    ensures forall i :: 0 <= i < |Left(q, bits)| ==> !Met(bits, Left(q, bits)[i].value) && Left(q, bits)[i] in q
    ensures forall i :: 0 <= i < |q| && !Met(bits, q[i].value) ==> q[i] in Left(q, bits)
    ensures |Left(q, bits)| + |Released(q, bits)| == |q|
  {
    if q != [] {
      LeftExactly(q[..|q| - 1], bits);
    }
  }

  /** Exactly the waiters whose condition the bits satisfy are released, and
      each sees those bits, which satisfy its own condition. */
  lemma {:induction false} ReleasedExactly(q: seq<Item>, bits: Bits)
    ensures forall i :: 0 <= i < |q| && Met(bits, q[i].value) ==> Item(Releasing(bits), q[i].task) in Released(q, bits)
    ensures forall r :: r in Released(q, bits) ==>
              && r.value == Releasing(bits)
              && exists i :: 0 <= i < |q| && q[i].task == r.task && Met(r.value.bits, q[i].value)
  {
    if q != [] {
      ReleasedExactly(q[..|q| - 1], bits);
    }
  }

  /** The bits to clear are those that released waiters waited for and asked to clear. */
  lemma {:induction false} ToClearExactly(q: seq<Item>, bits: Bits)
    ensures forall b :: b in ToClear(q, bits) <==>
              exists i :: 0 <= i < |q| && Met(bits, q[i].value) && q[i].value.clearOnExit && b in q[i].value.bits
  {
    if q != [] {
      var rest := q[..|q| - 1];
      ToClearExactly(rest, bits);
      forall b | b in ToClear(q, bits)
        ensures exists i :: 0 <= i < |q| && Met(bits, q[i].value) && q[i].value.clearOnExit && b in q[i].value.bits
      {
        if b in ToClear(rest, bits) {
          var i :| 0 <= i < |rest| && Met(bits, rest[i].value) && rest[i].value.clearOnExit && b in rest[i].value.bits;
          assert q[i] == rest[i];
        } else {
          assert q[|q| - 1].value.clearOnExit;
        }
      }
    }
  }

  /** A waiter whose condition the bits satisfy has asked to clear the bit. */
  ghost predicate Asked(q: seq<Item>, bits: Bits, b: nat) {
    exists i :: 0 <= i < |q| && Met(bits, q[i].value) && q[i].value.clearOnExit && b in q[i].value.bits
  }

  lemma AskedExactly(q: seq<Item>, bits: Bits)
    ensures forall b :: Asked(q, bits, b) <==> b in ToClear(q, bits)
  {
    ToClearExactly(q, bits);
  }

  /** No task is blocked whose condition the bits satisfy, and waiters do not
      carry the mark of a released task. */
  ghost predicate Valid(g: Group) {
    forall i :: 0 <= i < |g.waiting| ==> !Met(g.bits, g.waiting[i].value) && !g.waiting[i].value.unblocked
  }

  /** Fewer bits satisfy fewer conditions. */
  lemma FewerBitsMeetLess(bits: Bits, fewer: Bits, value: Value)
    requires fewer <= bits && Met(fewer, value)
    ensures Met(bits, value)
  {
    if !value.waitForAll {
      var b :| b in fewer * value.bits;
      assert b in bits * value.bits;
    }
  }

  function Cleared(g: Group, bits: Bits): Group {
    g.(bits := g.bits - bits)
  }

  lemma ClearKeepsValid(g: Group, cleared: Bits)
    requires Valid(g)
    ensures Valid(Cleared(g, cleared))
  {
    forall i | 0 <= i < |g.waiting|
      ensures !Met(g.bits - cleared, g.waiting[i].value)
    {
      if Met(g.bits - cleared, g.waiting[i].value) {
        FewerBitsMeetLess(g.bits, g.bits - cleared, g.waiting[i].value);
      }
    }
  }

  lemma SetKeepsValid(g: Group, set_: Bits)
    requires Valid(g)
    ensures Valid(WithSet(g, set_))
  {
    var b := g.bits + set_;
    LeftExactly(g.waiting, b);
    ClearKeepsValid(Group(b, Left(g.waiting, b), g.woken + Released(g.waiting, b)), ToClear(g.waiting, b));
  }

  /** A task blocks: vTaskPlaceOnUnorderedEventList. */
  function Blocking(g: Group, t: Task, waitFor: Bits, clear: bool, all: bool): Group {
    g.(waiting := g.waiting + [Item(Waiting(waitFor, clear, all), t)])
  }

  /** A waiter times out: it comes off the list with its value as it is. */
  function Expired(g: Group, k: nat): Group
    requires k < |g.waiting|
  {
    g.(waiting := g.waiting[..k] + g.waiting[k + 1..], woken := g.woken + [g.waiting[k]])
  }

  /** The first part of xEventGroupWaitBits: it returns at once, or blocks. */
  function WaitBits(g: Group, t: Task, waitFor: Bits, clear: bool, all: bool, wait: bool): (Group, Option<Bits>) {
    if TestWaitCondition(g.bits, waitFor, all) then
      (if clear then Cleared(g, waitFor) else g, Some(g.bits))
    else if !wait then (g, Some(g.bits))
    else (Blocking(g, t, waitFor, clear, all), None)
  }

  /** The first part of xEventGroupSync. */
  function Sync(g: Group, t: Task, set_: Bits, waitFor: Bits, wait: bool): (Group, Option<Bits>) {
    var b, g' := g.bits + set_, WithSet(g, set_);
    if b * waitFor == waitFor then (Cleared(g', waitFor), Some(b))
    else if wait then (Blocking(g', t, waitFor, true, true), None)
    else (g', Some(g'.bits))
  }

  /** The second part of both, for the task that comes k-th among the woken: if
      it was released it returns the bits it was released with; if it timed out
      it looks at the bits once more. */
  function Resumed(g: Group, k: nat, waitFor: Bits, clear: bool, all: bool): (Group, Bits)
    requires k < |g.woken|
  {
    var value, g' := g.woken[k].value, g.(woken := g.woken[..k] + g.woken[k + 1..]);
    if value.unblocked then (g', value.bits)
    else (if TestWaitCondition(g.bits, waitFor, all) && clear then Cleared(g', waitFor) else g', g.bits)
  }

  lemma BlockKeepsValid(g: Group, t: Task, waitFor: Bits, clear: bool, all: bool)
    requires Valid(g) && !TestWaitCondition(g.bits, waitFor, all)
    ensures Valid(Blocking(g, t, waitFor, clear, all))
  {
  }

  lemma ExpireKeepsValid(g: Group, k: nat)
    requires Valid(g) && k < |g.waiting|
    ensures Valid(Expired(g, k))
  {
  }

  lemma SyncKeepsValid(g: Group, t: Task, set_: Bits, waitFor: Bits, wait: bool)
    requires Valid(g)
    ensures Valid(Sync(g, t, set_, waitFor, wait).0)
  {
    var b, g' := g.bits + set_, WithSet(g, set_);
    SetKeepsValid(g, set_);
    ClearKeepsValid(g', waitFor);
    if b * waitFor != waitFor {
      if TestWaitCondition(g'.bits, waitFor, true) {
        FewerBitsMeetLess(b, g'.bits, Waiting(waitFor, true, true));
      }
      BlockKeepsValid(g', t, waitFor, true, true);
    }
  }

  lemma ResumedKeepsValid(g: Group, k: nat, waitFor: Bits, clear: bool, all: bool)
    requires Valid(g) && k < |g.woken|
    ensures Valid(Resumed(g, k, waitFor, clear, all).0)
  {
    ClearKeepsValid(g.(woken := g.woken[..k] + g.woken[k + 1..]), waitFor);
  }

  datatype Step =
    | SetStep(bits: Bits)
    | ClearStep(bits: Bits)
    | WaitStep(t: Task, waitFor: Bits, clear: bool, all: bool, wait: bool)
    | SyncStep(t: Task, bits: Bits, waitFor: Bits, wait: bool)
    | ExpireStep(k: nat)
    | ResumeStep(k: nat, waitFor: Bits, clear: bool, all: bool)

  predicate Enabled(g: Group, step: Step) {
    match step
    case SetStep(_) => true
    case ClearStep(_) => true
    case WaitStep(_, waitFor, _, _, _) => waitFor != {}
    case SyncStep(_, _, waitFor, _) => waitFor != {}
    case ExpireStep(k) => k < |g.waiting|
    case ResumeStep(k, _, _, _) => k < |g.woken|
  }

  function Apply(g: Group, step: Step): Group
    requires Enabled(g, step)
  {
    match step
    case SetStep(bits) => WithSet(g, bits)
    case ClearStep(bits) => Cleared(g, bits)
    case WaitStep(t, waitFor, clear, all, wait) => WaitBits(g, t, waitFor, clear, all, wait).0
    case SyncStep(t, bits, waitFor, wait) => Sync(g, t, bits, waitFor, wait).0
    case ExpireStep(k) => Expired(g, k)
    case ResumeStep(k, waitFor, clear, all) => Resumed(g, k, waitFor, clear, all).0
  }

  lemma StepKeepsValid(g: Group, step: Step)
    requires Valid(g) && Enabled(g, step)
    ensures Valid(Apply(g, step))
  {
    match step
    case SetStep(bits) => SetKeepsValid(g, bits);
    case ClearStep(bits) => ClearKeepsValid(g, bits);
    case WaitStep(t, waitFor, clear, all, wait) =>
      if TestWaitCondition(g.bits, waitFor, all) {
        ClearKeepsValid(g, waitFor);
      } else {
        BlockKeepsValid(g, t, waitFor, clear, all);
      }
    case SyncStep(t, bits, waitFor, wait) => SyncKeepsValid(g, t, bits, waitFor, wait);
    case ExpireStep(k) => ExpireKeepsValid(g, k);
    case ResumeStep(k, waitFor, clear, all) => ResumedKeepsValid(g, k, waitFor, clear, all);
  }

  predicate LegalRun(g: Group, run: seq<Step>)
    decreases |run|
  {
    run == [] || (Enabled(g, run[0]) && LegalRun(Apply(g, run[0]), run[1..]))
  }

  function Final(g: Group, run: seq<Step>): Group
    requires LegalRun(g, run)
    decreases |run|
  {
    if run == [] then g else Final(Apply(g, run[0]), run[1..])
  }

  /** In no state that a run reaches is a task blocked whose condition the bits satisfy. */
  lemma {:induction false} NobodyBlockedInVain(g: Group, run: seq<Step>)
    requires Valid(g) && LegalRun(g, run)
    ensures Valid(Final(g, run))
    decreases |run|
  {
    if run != [] {
      StepKeepsValid(g, run[0]);
      NobodyBlockedInVain(Apply(g, run[0]), run[1..]);
    }
  }

  // ---------- The functions of event_groups.c

  lemma VisitNext(q: seq<Item>, n: nat, bits: Bits)
    requires n < |q|
    ensures q[..n + 1][..n] == q[..n] && q[..n + 1][n] == q[n] && q[n..] == [q[n]] + q[n + 1..]
    ensures Left(q[..n + 1], bits) == Left(q[..n], bits) + if Met(bits, q[n].value) then [] else [q[n]]
    ensures Released(q[..n + 1], bits) ==
            Released(q[..n], bits) + if Met(bits, q[n].value) then [Item(Releasing(bits), q[n].task)] else []
    ensures ToClear(q[..n + 1], bits) ==
            ToClear(q[..n], bits) + if Met(bits, q[n].value) && q[n].value.clearOnExit then q[n].value.bits else {}
  {
    assert q[..n + 1][..n] == q[..n];
  }

  /** The loop takes the item behind those it has kept off the list, or keeps it. */
  lemma Passing(kept: seq<Item>, q: seq<Item>, n: nat)
    requires n < |q|
    ensures var w, k := kept + q[n..], |kept|;
            && w[k] == q[n] && w[..k] + w[k + 1..] == kept + q[n + 1..] && w == kept + [q[n]] + q[n + 1..]
  {
  }

  class EventGroup {
    var bits: Bits              // uxEventBits
    var waiting: seq<Item>      // xTasksWaitingForBits
    var woken: seq<Item>        // released or timed out, not yet run

    function View(): Group
      reads this
    {
      Group(bits, waiting, woken)
    }

    constructor ()
      ensures View() == Group({}, [], []) && Valid(View())
    {
      bits, waiting, woken := {}, [], [];
    }

    /** vTaskRemoveFromUnorderedEventList, for the k-th waiter. */
    method RemoveFromUnorderedEventList(k: nat, value: Value)
      requires k < |waiting|
      modifies this`waiting, this`woken
      ensures waiting == old(waiting)[..k] + old(waiting)[k + 1..]
      ensures woken == old(woken) + [Item(value, old(waiting)[k].task)]
    {
      woken := woken + [Item(value, waiting[k].task)];
      waiting := waiting[..k] + waiting[k + 1..];
    }

    /** The test in the loop of xEventGroupSetBits. */
    method MatchFound(value: Value) returns (found: bool)
      ensures found == Met(bits, value)
      ensures found <==> if value.waitForAll then value.bits <= bits else value.bits * bits != {}
    {
      found := false;
      assert value.bits * bits == bits * value.bits;
      if !value.waitForAll {
        if value.bits * bits != {} {
          found := true;
        }
      } else if value.bits * bits == value.bits {
        found := true;
      }
    }

    /** The loop of xEventGroupSetBits. */
    method ReleaseMatching() returns (bitsToClear: Bits)
      modifies this`waiting, this`woken
      ensures waiting == Left(old(waiting), bits) && woken == old(woken) + Released(old(waiting), bits)
      ensures bitsToClear == ToClear(old(waiting), bits)
    {
      ghost var q, n := waiting, 0;
      var k := 0;
      bitsToClear := {};
      while k < |waiting|
        invariant n <= |q| && k == |Left(q[..n], bits)| && waiting == Left(q[..n], bits) + q[n..]
        invariant woken == old(woken) + Released(q[..n], bits) && bitsToClear == ToClear(q[..n], bits)
        decreases |waiting| - k
      {
        VisitNext(q, n, bits);
        Passing(Left(q[..n], bits), q, n);
        var value := waiting[k].value;
        var found := MatchFound(value);
        if found {
          if value.clearOnExit {
            bitsToClear := bitsToClear + value.bits;
          }
          RemoveFromUnorderedEventList(k, Releasing(bits));
        } else {
          k := k + 1;
        }
        n := n + 1;
      }
      assert q[..n] == q;
    }

    /** xEventGroupSetBits. */
    method SetBits(bitsToSet: Bits) returns (r: Bits)
      modifies this
      ensures View() == WithSet(old(View()), bitsToSet) && r == bits
      ensures forall b :: b in bits <==>
                && (b in old(bits) || b in bitsToSet)
                && !Asked(old(waiting), old(bits) + bitsToSet, b)
    {
      AskedExactly(waiting, bits + bitsToSet);
      bits := bits + bitsToSet;
      var bitsToClear := ReleaseMatching();
      bits := bits - bitsToClear;
      r := bits;
    }

    /** xEventGroupClearBits. */
    method ClearBits(bitsToClear: Bits) returns (r: Bits)
      modifies this`bits
      ensures View() == Cleared(old(View()), bitsToClear) && r == old(bits)
    {
      r := bits;
      bits := bits - bitsToClear;
    }

    method Block(t: Task, value: Value)
      modifies this`waiting
      ensures waiting == old(waiting) + [Item(value, t)]
    {
      waiting := waiting + [Item(value, t)];
    }

    /** xEventGroupWaitBits, up to where the task blocks or returns. */
    method WaitForBits(t: Task, waitFor: Bits, clearOnExit: bool, waitForAll: bool, wait: bool)
      returns (r: Option<Bits>)
      modifies this
      ensures var met := if waitForAll then waitFor <= old(bits) else waitFor * old(bits) != {};
              && (r.Some? <==> met || !wait) && (r.Some? ==> r.value == old(bits))
              && bits == (if met && clearOnExit then old(bits) - waitFor else old(bits))
      ensures waiting == old(waiting) +
                         if r == None then [Item(Value(waitFor, clearOnExit, false, waitForAll), t)] else []
      ensures unchanged(`woken)
      ensures (View(), r) == WaitBits(old(View()), t, waitFor, clearOnExit, waitForAll, wait)
    {
      if TestWaitCondition(bits, waitFor, waitForAll) {
        r := Some(bits);
        if clearOnExit {
          bits := bits - waitFor;
        }
      } else if !wait {
        r := Some(bits);
      } else {
        Block(t, Waiting(waitFor, clearOnExit, waitForAll));
        r := None;
      }
    }

    /** xEventGroupSync, up to where the task blocks or returns. */
    method SyncBits(t: Task, bitsToSet: Bits, waitFor: Bits, wait: bool) returns (r: Option<Bits>)
      modifies this
      ensures var all := old(bits) + bitsToSet;
              && (r.Some? <==> waitFor <= all || !wait)
              && (waitFor <= all ==> r == Some(all) && bits == all - ToClear(old(waiting), all) - waitFor)
              && (!(waitFor <= all) ==> bits == all - ToClear(old(waiting), all) && (r.Some? ==> r.value == bits))
              && waiting == Left(old(waiting), all) +
                            (if r == None then [Item(Value(waitFor, true, false, true), t)] else [])
              && woken == old(woken) + Released(old(waiting), all)
      ensures (View(), r) == Sync(old(View()), t, bitsToSet, waitFor, wait)
    {
      var original := bits;
      var after := SetBits(bitsToSet);
      if (original + bitsToSet) * waitFor == waitFor {
        r := Some(original + bitsToSet);
        bits := bits - waitFor;
      } else if wait {
        Block(t, Waiting(waitFor, true, true));
        r := None;
      } else {
        r := Some(bits);
      }
    }

    /** Either call once the task runs again: uxTaskResetEventItemValue and after. */
    method Resume(k: nat, waitFor: Bits, clearOnExit: bool, waitForAll: bool) returns (r: Bits)
      requires k < |woken|
      modifies this
      ensures var value := old(woken)[k].value;
              var met := if waitForAll then waitFor <= old(bits) else waitFor * old(bits) != {};
              && r == (if value.unblocked then value.bits else old(bits))
              && bits == (if !value.unblocked && met && clearOnExit then old(bits) - waitFor else old(bits))
      ensures woken == old(woken)[..k] + old(woken)[k + 1..] && unchanged(`waiting)
      ensures (View(), r) == Resumed(old(View()), k, waitFor, clearOnExit, waitForAll)
    {
      var value := woken[k].value;
      woken := woken[..k] + woken[k + 1..];
      r := value.bits;
      if !value.unblocked {
        r := bits;
        if TestWaitCondition(bits, waitFor, waitForAll) && clearOnExit {
          bits := bits - waitFor;
        }
      }
    }
  }

  // ---------- Rendezvous

  /** A task that arrives, and the bits it sets. */
  datatype Arrival = Arrival(task: Task, bits: Bits)

  function Union(p: seq<Arrival>): Bits {
    if p == [] then {} else Union(p[..|p| - 1]) + p[|p| - 1].bits
  }

  /** The tasks arrive one after the other, each waiting forever for all bits of
      u; also what the first part of each call returns. */
  function Arrive(g: Group, p: seq<Arrival>, u: Bits): (Group, seq<Option<Bits>>) {
    if p == [] then (g, [])
    else
      var before, last := Arrive(g, p[..|p| - 1], u), p[|p| - 1];
      var after := Sync(before.0, last.task, last.bits, u, true);
      (after.0, before.1 + [after.1])
  }

  function Waiters(p: seq<Arrival>, u: Bits): (q: seq<Item>)
    ensures |q| == |p| && forall i :: 0 <= i < |p| ==> q[i] == Item(Waiting(u, true, true), p[i].task)
  {
    seq(|p|, i requires 0 <= i < |p| => Item(Waiting(u, true, true), p[i].task))
  }

  function Freed(p: seq<Arrival>, u: Bits): (q: seq<Item>)
    ensures |q| == |p| && forall i :: 0 <= i < |p| ==> q[i] == Item(Releasing(u), p[i].task)
  {
    seq(|p|, i requires 0 <= i < |p| => Item(Releasing(u), p[i].task))
  }

  function Nothing(n: nat): (r: seq<Option<Bits>>)
    ensures |r| == n && forall i :: 0 <= i < n ==> r[i] == None
  {
    seq(n, _ => None)
  }

  /** Bits that do not cover u release nobody. */
  lemma {:induction false} NoneFreed(p: seq<Arrival>, u: Bits, bits: Bits)
    requires bits * u != u
    ensures Left(Waiters(p, u), bits) == Waiters(p, u)
    ensures Released(Waiters(p, u), bits) == [] && ToClear(Waiters(p, u), bits) == {}
  {
    if p != [] {
      assert Waiters(p, u)[..|p| - 1] == Waiters(p[..|p| - 1], u);
      NoneFreed(p[..|p| - 1], u, bits);
    }
  }

  /** Bits that cover u release everybody, with those bits. */
  lemma {:induction false} AllFreed(p: seq<Arrival>, u: Bits)
    ensures Left(Waiters(p, u), u) == [] && Released(Waiters(p, u), u) == Freed(p, u)
    ensures ToClear(Waiters(p, u), u) <= u
  {
    if p != [] {
      assert Waiters(p, u)[..|p| - 1] == Waiters(p[..|p| - 1], u);
      AllFreed(p[..|p| - 1], u);
      assert u * u == u;
      assert Freed(p, u) == Freed(p[..|p| - 1], u) + [Item(Releasing(u), p[|p| - 1].task)];
    }
  }

  lemma {:induction false} UnionGrows(p: seq<Arrival>, k: nat)
    requires k <= |p|
    ensures Union(p[..k]) <= Union(p)
  {
    if k < |p| {
      UnionGrows(p[..|p| - 1], k);
      assert p[..|p| - 1][..k] == p[..k];
    } else {
      assert p[..k] == p;
    }
  }

  /** Without any one of them, the tasks do not set all the bits. */
  ghost predicate AllNeeded(p: seq<Arrival>, u: Bits) {
    Union(p) == u && forall i :: 0 <= i < |p| ==> Union(p[..i] + p[i + 1..]) != u
  }

  lemma PrefixNotEnough(p: seq<Arrival>, u: Bits, k: nat)
    requires AllNeeded(p, u) && k < |p|
    ensures Union(p[..k]) <= u && Union(p[..k]) != u
  {
    var n := |p| - 1;
    UnionGrows(p, k);
    UnionGrows(p[..n], k);
    assert p[..n][..k] == p[..k];
    UnionGrows(p, n);
    assert p[..n] + p[n + 1..] == p[..n];
  }

  lemma OneMoreWaits(woken: seq<Item>, q: seq<Arrival>, bits: Bits, last: Arrival, u: Bits)
    requires bits + last.bits <= u && bits + last.bits != u
    ensures Sync(Group(bits, Waiters(q, u), woken), last.task, last.bits, u, true) ==
            (Group(bits + last.bits, Waiters(q, u) + [Item(Waiting(u, true, true), last.task)], woken), None)
  {
    var b := bits + last.bits;
    assert b * u == b;
    NoneFreed(q, u, b);
    assert b - {} == b && woken + [] == woken;
  }

  lemma LastArrives(woken: seq<Item>, q: seq<Arrival>, bits: Bits, last: Arrival, u: Bits)
    requires bits + last.bits == u
    ensures Sync(Group(bits, Waiters(q, u), woken), last.task, last.bits, u, true) ==
            (Group({}, [], woken + Freed(q, u)), Some(u))
  {
    AllFreed(q, u);
    assert u * u == u;
    assert (u - ToClear(Waiters(q, u), u)) - u == {};
  }

  lemma PrefixesMissBits(p: seq<Arrival>, u: Bits)
    requires p != [] && forall k :: 0 <= k <= |p| ==> Union(p[..k]) <= u && Union(p[..k]) != u
    ensures Union(p) <= u && Union(p) != u
    ensures var q := p[..|p| - 1]; forall k :: 0 <= k <= |q| ==> Union(q[..k]) <= u && Union(q[..k]) != u
  {
    assert p[..|p|] == p;
    var q := p[..|p| - 1];
    assert forall k :: 0 <= k <= |q| ==> q[..k] == p[..k];
  }

  lemma WaitersOn(p: seq<Arrival>, u: Bits)
    requires p != []
    ensures Waiters(p, u) == Waiters(p[..|p| - 1], u) + [Item(Waiting(u, true, true), p[|p| - 1].task)]
  {
  }

  lemma NothingOn(n: nat)
    ensures Nothing(n + 1) == Nothing(n) + [None]
  {
  }

  /** As long as bits of u are missing, everybody waits. */
  lemma {:induction false} EverybodyWaits(g: Group, p: seq<Arrival>, u: Bits)
    requires g.bits == {} && g.waiting == []
    requires forall k :: 0 <= k <= |p| ==> Union(p[..k]) <= u && Union(p[..k]) != u
    ensures Arrive(g, p, u) == (Group(Union(p), Waiters(p, u), g.woken), Nothing(|p|))
  {
    if p != [] {
      var q, last := p[..|p| - 1], p[|p| - 1];
      PrefixesMissBits(p, u);
      EverybodyWaits(g, q, u);
      OneMoreWaits(g.woken, q, Union(q), last, u);
      WaitersOn(p, u);
      NothingOn(|q|);
    }
  }

  /** One round: nobody's call returns before the last task arrives; that
      arrival releases all the others, with all the bits of u to be seen, returns
      the same, and leaves all bits clear and nobody waiting. */
  lemma RendezvousRound(g: Group, p: seq<Arrival>, u: Bits)
    requires g.bits == {} && g.waiting == [] && p != [] && AllNeeded(p, u)
    ensures forall k :: 0 <= k < |p| ==>
              Arrive(g, p[..k], u) == (Group(Union(p[..k]), Waiters(p[..k], u), g.woken), Nothing(k))
    ensures Arrive(g, p, u) ==
            (Group({}, [], g.woken + Freed(p[..|p| - 1], u)), Nothing(|p| - 1) + [Some(u)])
  {
    forall k | 0 <= k < |p|
      ensures Arrive(g, p[..k], u) == (Group(Union(p[..k]), Waiters(p[..k], u), g.woken), Nothing(k))
    {
      forall j | 0 <= j <= k
        ensures Union(p[..k][..j]) <= u && Union(p[..k][..j]) != u
      {
        PrefixNotEnough(p, u, j);
        assert p[..k][..j] == p[..j];
      }
      EverybodyWaits(g, p[..k], u);
    }
    LastArrives(g.woken, p[..|p| - 1], Union(p[..|p| - 1]), p[|p| - 1], u);
  }

  // ---------- Rounds of the rendezvous, with released tasks running at any time

  /** A task arrives, or the k-th of the released tasks runs and its call returns. */
  datatype Turn = Arrives(arrival: Arrival) | Runs(k: nat)

  /** The group, what the first parts of the calls have given, and the bits that
      released calls have returned. */
  datatype Outcome = Outcome(group: Group, calls: seq<Option<Bits>>, returned: seq<Bits>)

  predicate Possible(o: Outcome, turn: Turn) {
    turn.Runs? ==> turn.k < |o.group.woken|
  }

  function AfterTurn(o: Outcome, turn: Turn, u: Bits): Outcome
    requires Possible(o, turn)
  {
    match turn
    case Arrives(a) =>
      var s := Sync(o.group, a.task, a.bits, u, true);
      Outcome(s.0, o.calls + [s.1], o.returned)
    case Runs(k) =>
      var r := Resumed(o.group, k, u, true, true);
      Outcome(r.0, o.calls, o.returned + [r.1])
  }

  predicate LegalTurns(o: Outcome, turns: seq<Turn>, u: Bits)
    decreases |turns|
  {
    turns == [] || (Possible(o, turns[0]) && LegalTurns(AfterTurn(o, turns[0], u), turns[1..], u))
  }

  function AfterTurns(o: Outcome, turns: seq<Turn>, u: Bits): Outcome
    requires LegalTurns(o, turns, u)
    decreases |turns|
  {
    if turns == [] then o else AfterTurns(AfterTurn(o, turns[0], u), turns[1..], u)
  }

  function Arrivals(turns: seq<Turn>): seq<Arrival> {
    if turns == [] then []
    else (if turns[0].Arrives? then [turns[0].arrival] else []) + Arrivals(turns[1..])
  }

  /** Everybody who has been released has been released with u. */
  ghost predicate ReleasedWith(woken: seq<Item>, u: Bits) {
    forall i :: 0 <= i < |woken| ==> woken[i].value == Releasing(u)
  }

  /** The first k of the tasks p of a round have arrived. */
  ghost predicate Stage(g: Group, p: seq<Arrival>, k: nat, u: Bits) {
    && k <= |p| && ReleasedWith(g.woken, u)
    && g.bits == (if k < |p| then Union(p[..k]) else {})
    && g.waiting == if k < |p| then Waiters(p[..k], u) else []
  }

  /** What the calls of n tasks give at first. */
  function AtFirst(n: nat, u: Bits): seq<Option<Bits>> {
    if n == 0 then [] else Nothing(n - 1) + [Some(u)]
  }

  /** What turns add: so many calls return u, and what each arrival is given. */
  ghost predicate Added(o: Outcome, o': Outcome, calls: seq<Option<Bits>>, released: nat, u: Bits) {
    && o'.calls == o.calls + calls
    && |o.returned| <= |o'.returned| && o'.returned[..|o.returned|] == o.returned
    && (forall i :: |o.returned| <= i < |o'.returned| ==> o'.returned[i] == u)
    && |o'.group.woken| + |o'.returned| == |o.group.woken| + |o.returned| + released
  }

  lemma AddedTogether(o: Outcome, o1: Outcome, o2: Outcome, calls1: seq<Option<Bits>>, calls2: seq<Option<Bits>>,
                      n1: nat, n2: nat, u: Bits)
    requires Added(o, o1, calls1, n1, u) && Added(o1, o2, calls2, n2, u)
    ensures Added(o, o2, calls1 + calls2, n1 + n2, u)
  {
    forall i | 0 <= i < |o.returned|
      ensures o2.returned[i] == o.returned[i]
    {
      assert o2.returned[..|o1.returned|][i] == o1.returned[i];
      assert o1.returned[..|o.returned|][i] == o.returned[i];
    }
    assert o2.returned[..|o.returned|] == o.returned;
    forall i | |o.returned| <= i < |o2.returned|
      ensures o2.returned[i] == u
    {
      if i < |o1.returned| {
        assert o2.returned[..|o1.returned|][i] == o1.returned[i];
      }
    }
  }

  /** A released task that runs returns u, and nothing else changes. */
  lemma RunInRound(o: Outcome, p: seq<Arrival>, k: nat, u: Bits, j: nat)
    requires Stage(o.group, p, k, u) && j < |o.group.woken|
    ensures Stage(AfterTurn(o, Runs(j), u).group, p, k, u)
    ensures Added(o, AfterTurn(o, Runs(j), u), [], 0, u)
  {
    assert o.group.woken[j].value == Releasing(u);
    assert o.calls + [] == o.calls;
  }

  /** Before the last task everybody waits; the last one releases the others. */
  lemma ArrivalInRound(o: Outcome, p: seq<Arrival>, k: nat, u: Bits)
    requires AllNeeded(p, u) && Stage(o.group, p, k, u) && k < |p|
    ensures var o' := AfterTurn(o, Arrives(p[k]), u);
            && Stage(o'.group, p, k + 1, u)
            && Added(o, o', [if k + 1 < |p| then None else Some(u)], if k + 1 < |p| then 0 else k, u)
  {
    var q := p[..k];
    assert p[..k + 1][..k] == q && p[..k + 1][k] == p[k];
    if k + 1 < |p| {
      PrefixNotEnough(p, u, k + 1);
      OneMoreWaits(o.group.woken, q, Union(q), p[k], u);
      assert Waiters(p[..k + 1], u) == Waiters(q, u) + [Item(Waiting(u, true, true), p[k].task)];
    } else {
      assert p[..k + 1] == p;
      LastArrives(o.group.woken, q, Union(q), p[k], u);
    }
  }

  lemma AtFirstOn(n: nat, k: nat, u: Bits)
    requires k < n
    ensures AtFirst(n, u)[k..] == [if k + 1 < n then None else Some(u)] + AtFirst(n, u)[k + 1..]
  {
  }

  /** A round whose first k tasks have arrived in o is over in o'. */
  ghost predicate RoundEnds(o: Outcome, o': Outcome, p: seq<Arrival>, k: nat, u: Bits) {
    && k <= |p| && Stage(o'.group, p, |p|, u)
    && Added(o, o', AtFirst(|p|, u)[k..], if k < |p| then |p| - 1 else 0, u)
  }

  lemma RunThenRest(o: Outcome, o1: Outcome, o2: Outcome, p: seq<Arrival>, k: nat, u: Bits)
    requires Added(o, o1, [], 0, u) && RoundEnds(o1, o2, p, k, u)
    ensures RoundEnds(o, o2, p, k, u)
  {
    var rest := AtFirst(|p|, u)[k..];
    AddedTogether(o, o1, o2, [], rest, 0, if k < |p| then |p| - 1 else 0, u);
    assert [] + rest == rest;
  }

  lemma ArrivalThenRest(o: Outcome, o1: Outcome, o2: Outcome, p: seq<Arrival>, k: nat, u: Bits)
    requires k < |p| && RoundEnds(o1, o2, p, k + 1, u)
    requires Added(o, o1, [if k + 1 < |p| then None else Some(u)], if k + 1 < |p| then 0 else k, u)
    ensures RoundEnds(o, o2, p, k, u)
  {
    AtFirstOn(|p|, k, u);
    AddedTogether(o, o1, o2, [if k + 1 < |p| then None else Some(u)], AtFirst(|p|, u)[k + 1..],
                  if k + 1 < |p| then 0 else k, if k + 1 < |p| then |p| - 1 else 0, u);
  }

  lemma NothingAdded(o: Outcome, p: seq<Arrival>, u: Bits)
    requires Stage(o.group, p, |p|, u)
    ensures RoundEnds(o, o, p, |p|, u)
  {
    assert o.calls + [] == o.calls;
  }

  lemma NobodyLeft(p: seq<Arrival>, k: nat)
    requires k <= |p| && p[k..] == []
    ensures k == |p|
  {
    assert |p[k..]| == |p| - k;
  }

  /** The rest of a round. */
  lemma {:induction false} RestOfRound(o: Outcome, turns: seq<Turn>, p: seq<Arrival>, k: nat, u: Bits)
    requires LegalTurns(o, turns, u) && AllNeeded(p, u) && Stage(o.group, p, k, u) && Arrivals(turns) == p[k..]
    ensures RoundEnds(o, AfterTurns(o, turns, u), p, k, u)
    decreases |turns|
  {
    if turns == [] {
      NobodyLeft(p, k);
      NothingAdded(o, p, u);
    } else {
      var o1, o2 := AfterTurn(o, turns[0], u), AfterTurns(o, turns, u);
      if turns[0].Runs? {
        RunInRound(o, p, k, u, turns[0].k);
        RestOfRound(o1, turns[1..], p, k, u);
        RunThenRest(o, o1, o2, p, k, u);
      } else {
        FirstArrival(turns, p, k);
        ArrivalInRound(o, p, k, u);
        RestOfRound(o1, turns[1..], p, k + 1, u);
        ArrivalThenRest(o, o1, o2, p, k, u);
      }
    }
  }

  lemma FirstArrival(turns: seq<Turn>, p: seq<Arrival>, k: nat)
    requires turns != [] && turns[0].Arrives? && k <= |p| && Arrivals(turns) == p[k..]
    ensures k < |p| && turns[0].arrival == p[k] && Arrivals(turns[1..]) == p[k + 1..]
  {
    assert Arrivals(turns)[0] == turns[0].arrival && Arrivals(turns)[1..] == Arrivals(turns[1..]);
    assert p[k..][1..] == p[k + 1..];
  }

  predicate LegalRounds(o: Outcome, rounds: seq<seq<Turn>>, u: Bits)
    decreases |rounds|
  {
    rounds == [] || (LegalTurns(o, rounds[0], u) && LegalRounds(AfterTurns(o, rounds[0], u), rounds[1..], u))
  }

  function AfterRounds(o: Outcome, rounds: seq<seq<Turn>>, u: Bits): Outcome
    requires LegalRounds(o, rounds, u)
    decreases |rounds|
  {
    if rounds == [] then o else AfterRounds(AfterTurns(o, rounds[0], u), rounds[1..], u)
  }

  /** What the calls of all rounds give at first, and how many are released. */
  function AllAtFirst(rounds: seq<seq<Turn>>, u: Bits): seq<Option<Bits>> {
    if rounds == [] then [] else AtFirst(|Arrivals(rounds[0])|, u) + AllAtFirst(rounds[1..], u)
  }

  function AllReleased(rounds: seq<seq<Turn>>): nat {
    if rounds == [] then 0
    else (if Arrivals(rounds[0]) == [] then 0 else |Arrivals(rounds[0])| - 1) + AllReleased(rounds[1..])
  }

  /** The barrier can be used again: round after round, whatever the order of
      arrival and whenever released tasks run, also in later rounds, only the
      last call of a round returns at once, with all bits; every released call
      returns all bits too, no more of them than were released, and after each
      round the group is as new. */
  lemma {:induction false} RendezvousReusable(o: Outcome, rounds: seq<seq<Turn>>, u: Bits)
    requires o.group.bits == {} && o.group.waiting == [] && ReleasedWith(o.group.woken, u) && LegalRounds(o, rounds, u)
    requires forall r :: 0 <= r < |rounds| ==> Arrivals(rounds[r]) != [] && AllNeeded(Arrivals(rounds[r]), u)
    ensures var o' := AfterRounds(o, rounds, u);
            && o'.group.bits == {} && o'.group.waiting == [] && ReleasedWith(o'.group.woken, u)
            && Added(o, o', AllAtFirst(rounds, u), AllReleased(rounds), u)
    decreases |rounds|
  {
    if rounds == [] {
      assert o.calls + [] == o.calls;
    } else {
      var p, o1 := Arrivals(rounds[0]), AfterTurns(o, rounds[0], u);
      assert p[..0] == [] && p[0..] == p && AtFirst(|p|, u)[0..] == AtFirst(|p|, u);
      RestOfRound(o, rounds[0], p, 0, u);
      RendezvousReusable(o1, rounds[1..], u);
      AddedTogether(o, o1, AfterRounds(o1, rounds[1..], u), AtFirst(|p|, u), AllAtFirst(rounds[1..], u),
                    |p| - 1, AllReleased(rounds[1..]), u);
    }
  }
}
