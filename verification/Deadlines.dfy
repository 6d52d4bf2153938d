/** Deadlines kept across the wrap of the tick counter: vTaskDelayUntil and
    xTaskCheckForTimeOut of tasks.c.

    A true time is unbounded; the kernel sees it modulo the round of the tick
    counter, and the number of rounds modulo the range of the overflow counter.
 */
module Deadlines {
  import opened Arithmetic

  /** Subtraction of tick counts, as an unsigned type does it. */
  function Minus(a: nat, b: nat, round: nat): (d: nat)
    requires a < round && b < round
    ensures d < round
  {
    if a >= b then a - b else a + round - b
  }

  function Plus(a: nat, b: nat, round: nat): (d: nat)
    requires a < round && b < round
    ensures d < round
  {
    if a + b < round then a + b else a + b - round
  }

  /** A true time, and what the counter shows at it. */
  ghost predicate Shows(time: nat, epoch: nat, tick: nat, round: nat) {
    tick < round && time == epoch * round + tick
  }

  /** The difference of two counts is the true time between them, in either
      direction, up to whole rounds. */
  lemma MinusIsElapsed(start: nat, now: nat, e0: nat, t0: nat, e1: nat, t1: nat, round: nat)
    requires Shows(start, e0, t0, round) && Shows(now, e1, t1, round)
    ensures (now - start) / round == e1 - e0 - (if t1 >= t0 then 0 else 1)
    ensures (now - start) % round == Minus(t1, t0, round)
  {
    var q: int := e1 - e0 - if t1 >= t0 then 0 else 1;
    assert q * round == e1 * round - e0 * round - if t1 >= t0 then 0 else round;
    var elapsed: int := now - start;
    DivModUnique(elapsed, q, Minus(t1, t0, round), round);
  }

  lemma Parts(x: int, round: nat)
    requires round > 0
    ensures x == x / round * round + x % round && 0 <= x % round < round
    ensures x < 0 <==> x / round < 0
    ensures x < round <==> x / round < 1
    ensures x < 0 ==> x / round * round + round <= 0
    ensures x >= round ==> x / round * round >= round
  {
    var q := x / round;
    if q < 0 {
      MulMonotone(q, -1, round);
    } else if q > 0 {
      MulMonotone(1, q, round);
    }
  }

  /** The decision of vTaskDelayUntil. */
  method DelayUntil(previous: nat, increment: nat, tick: nat, round: nat) returns (wake: nat, delay: bool, ticks: nat)
    requires previous < round && 0 < increment < round && tick < round
    ensures wake == Plus(previous, increment, round) && delay == Delays(previous, increment, tick, round)
    ensures delay ==> ticks == Minus(wake, tick, round)
  {
    delay, ticks := false, 0;
    wake := Plus(previous, increment, round);
    if tick < previous {
      if wake < previous && wake > tick {
        delay := true;
      }
    } else {
      if wake < previous || wake > tick {
        delay := true;
      }
    }
    if delay {
      ticks := Minus(wake, tick, round);
    }
  }

  /** The counter's distance from the reference is less than the increment. */
  predicate Delays(previous: nat, increment: nat, tick: nat, round: nat)
    requires previous < round && tick < round
  {
    Minus(tick, previous, round) < increment
  }

  /** What the call promises: it blocks just when the wake time is in the
      future, and then until exactly that time. */
  ghost predicate Periodic(last: nat, now: nat, increment: nat, delay: bool, ticks: int) {
    (delay <==> now < last + increment) && (delay ==> now + ticks == last + increment)
  }

  /** Whatever the reference: the task blocks if and only if less than the
      increment has passed since the counter last showed the reference, and
      sleeps whole rounds too long or too short unless it called within one. */
  lemma DelaysExactly(last: nat, now: nat, increment: nat, e0: nat, previous: nat, e1: nat, tick: nat, round: nat)
    requires Shows(last, e0, previous, round) && Shows(now, e1, tick, round) && 0 < increment < round
    ensures Delays(previous, increment, tick, round) <==> (now - last) % round < increment
    ensures var wake := Plus(previous, increment, round);
            && Shows(last + increment, if previous + increment < round then e0 else e0 + 1, wake, round)
            && (Delays(previous, increment, tick, round) ==>
                  now + Minus(wake, tick, round) == last + increment + (now - last) / round * round)
  {
    MinusIsElapsed(last, now, e0, previous, e1, tick, round);
    WakeShown(last, increment, e0, previous, round);
    Parts(now - last, round);
    if Delays(previous, increment, tick, round) {
      SleepLeft(previous, increment, tick, round);
    }
  }

  lemma WakeShown(last: nat, increment: nat, e0: nat, previous: nat, round: nat)
    requires Shows(last, e0, previous, round) && 0 < increment < round
    ensures Shows(last + increment, if previous + increment < round then e0 else e0 + 1,
                  Plus(previous, increment, round), round)
  {
    assert (e0 + 1) * round == e0 * round + round;
  }

  lemma SleepLeft(previous: nat, increment: nat, tick: nat, round: nat)
    requires previous < round && tick < round && Minus(tick, previous, round) < increment < round
    ensures Minus(Plus(previous, increment, round), tick, round) == increment - Minus(tick, previous, round)
  {
  }

  /** The promise is kept if and only if the reference is not ahead of the call,
      and is less than a round behind it or the increment has passed since the
      counter last showed it. */
  lemma DelayUntilIsPeriodic(last: nat, now: nat, increment: nat, e0: nat, previous: nat, e1: nat, tick: nat,
                             round: nat)
    requires Shows(last, e0, previous, round) && Shows(now, e1, tick, round) && 0 < increment < round
    ensures Periodic(last, now, increment, Delays(previous, increment, tick, round),
                     Minus(Plus(previous, increment, round), tick, round))
       <==> last <= now && (now < last + round || increment <= (now - last) % round)
  {
    DelaysExactly(last, now, increment, e0, previous, e1, tick, round);
    Parts(now - last, round);
  }

  /** A caller a round or more late should not block, since its wake time has
      passed, and does so if and only if less than the increment has passed
      since the latest time with the same count as its reference. */
  lemma DelayUntilAfterRound(last: nat, now: nat, increment: nat, e0: nat, previous: nat, e1: nat, tick: nat,
                             round: nat)
    requires Shows(last, e0, previous, round) && Shows(now, e1, tick, round)
    requires last + round <= now && 0 < increment < round
    ensures last + increment < now
    ensures Delays(previous, increment, tick, round) <==> (now - last) % round < increment
  {
    DelaysExactly(last, now, increment, e0, previous, e1, tick, round);
  }

  /** A reference ahead of the call, as a task finds it whose delay was aborted
      or that was suspended and resumed: its wake time is in the future, yet it
      blocks if and only if the reference is less than the increment short of a
      whole round ahead, and then for a round less than it should. */
  lemma DelayUntilAhead(last: nat, now: nat, increment: nat, e0: nat, previous: nat, e1: nat, tick: nat, round: nat)
    requires Shows(last, e0, previous, round) && Shows(now, e1, tick, round)
    requires now < last < now + round && 0 < increment < round
    ensures now < last + increment
    ensures Delays(previous, increment, tick, round) <==> now + round < last + increment
    ensures now + round < last + increment ==>
              now + round + Minus(Plus(previous, increment, round), tick, round) == last + increment
  {
    DelaysExactly(last, now, increment, e0, previous, e1, tick, round);
    DivModUnique(now - last, -1, now + round - last, round);
  }

  /** The task aborted in a delay until 100 calls again at 50 and is not
      delayed, although it asks for 110. */
  method AbortedIsNotDelayed() returns (delay: bool)
    ensures !delay && !Periodic(100, 50, 10, delay, 0)
  {
    var wake, ticks;
    wake, delay, ticks := DelayUntil(100, 10, 50, 0x1_0000);
  }

  /** A task with reference 0 that calls at 0x1_0005 blocks, although it asked
      for 10. */
  method LateIsDelayed() returns (delay: bool, ticks: nat)
    ensures delay && ticks == 5 && !Periodic(0, 0x1_0005, 10, delay, ticks)
    ensures Shows(0x1_0005, 1, 5, 0x1_0000)
  {
    var wake;
    wake, delay, ticks := DelayUntil(0, 10, 5, 0x1_0000);
  }

  /** TimeOut_t. */
  datatype TimeOut = TimeOut(overflowCount: nat, timeOnEntering: nat)

  ghost predicate EnteredAt(timeOut: TimeOut, start: nat, epoch: nat, round: nat, counts: nat) {
    Shows(start, epoch, timeOut.timeOnEntering, round) && counts > 0 && timeOut.overflowCount == epoch % counts
  }

  /** xTaskCheckForTimeOut, given the flag ucDelayAborted and the counters. */
  method CheckForTimeOut(aborted: bool, overflows: nat, tick: nat, timeOut: TimeOut, ticksToWait: nat, round: nat)
    returns (expired: bool, aborted': bool, timeOut': TimeOut, ticksToWait': nat)
    requires tick < round && timeOut.timeOnEntering < round && ticksToWait < round
    ensures aborted ==> expired && !aborted' && timeOut' == timeOut && ticksToWait' == ticksToWait
    ensures !aborted ==> !aborted' && expired == Expires(overflows, tick, timeOut, ticksToWait, round)
    ensures !aborted && !expired && ticksToWait < round - 1 ==>
              && timeOut' == TimeOut(overflows, tick)
              && ticksToWait' == ticksToWait - Minus(tick, timeOut.timeOnEntering, round)
    ensures !aborted && ticksToWait == round - 1 ==> !expired && timeOut' == timeOut && ticksToWait' == ticksToWait
    ensures !aborted && expired ==>
              && timeOut' == timeOut
              && ticksToWait' == if CameRound(overflows, tick, timeOut) then ticksToWait else 0
  {
    var elapsed := Minus(tick, timeOut.timeOnEntering, round);
    aborted', timeOut', ticksToWait' := aborted, timeOut, ticksToWait;
    if aborted {
      aborted' := false;
      expired := true;
    } else if ticksToWait == round - 1 {
      expired := false;
    } else if overflows != timeOut.overflowCount && tick >= timeOut.timeOnEntering {
      expired := true;
    } else if elapsed < ticksToWait {
      ticksToWait' := ticksToWait - elapsed;
      timeOut' := TimeOut(overflows, tick);
      expired := false;
    } else {
      ticksToWait' := 0;
      expired := true;
    }
  }

  /** The counter has wrapped and come past the entry count again. */
  predicate CameRound(overflows: nat, tick: nat, timeOut: TimeOut) {
    overflows != timeOut.overflowCount && tick >= timeOut.timeOnEntering
  }

  predicate Expires(overflows: nat, tick: nat, timeOut: TimeOut, ticksToWait: nat, round: nat)
    requires tick < round && timeOut.timeOnEntering < round
  {
    && ticksToWait != round - 1
    && (CameRound(overflows, tick, timeOut) ||
        Minus(tick, timeOut.timeOnEntering, round) >= ticksToWait)
  }

  /** The answer is right if and only if less than a round has passed, or the
      wait is over even if whole rounds are not counted, or the count has not
      wrapped once more than whole rounds have passed and the overflow counter
      tells the number of rounds from none. */
  lemma CheckIsExact(start: nat, now: nat, e0: nat, e1: nat, tick: nat, timeOut: TimeOut,
                     ticksToWait: nat, round: nat, counts: nat)
    requires EnteredAt(timeOut, start, e0, round, counts) && Shows(now, e1, tick, round) && start <= now
    requires ticksToWait < round - 1
    ensures (Expires(e1 % counts, tick, timeOut, ticksToWait, round) <==> now - start >= ticksToWait)
       <==> || now - start < round || (now - start) % round >= ticksToWait
            || (start % round + (now - start) % round < round && (now - start) / round % counts != 0)
  {
    var t0 := timeOut.timeOnEntering;
    MinusIsElapsed(start, now, e0, t0, e1, tick, round);
    Parts(now - start, round);
    DivModUnique(start, e0, t0, round);
    if tick >= t0 {
      SameCount(e0, e1, counts);
    }
  }

  /** The overflow counter, at both ends of a time, tells whole turns of its own
      from none. */
  lemma SameCount(e0: nat, e1: nat, counts: nat)
    requires e0 <= e1 && counts > 0
    ensures e1 % counts == e0 % counts <==> (e1 - e0) % counts == 0
  {
    var q0, q1, m0, m1 := e0 / counts, e1 / counts, e0 % counts, e1 % counts;
    assert e0 == q0 * counts + m0 && e1 == q1 * counts + m1;
    assert (q1 - q0) * counts == q1 * counts - q0 * counts;
    if m1 >= m0 {
      DivModUnique(e1 - e0, q1 - q0, m1 - m0, counts);
    } else {
      assert (q1 - q0 - 1) * counts == (q1 - q0) * counts - counts;
      DivModUnique(e1 - e0, q1 - q0 - 1, m1 - m0 + counts, counts);
    }
  }

  /** A wait of 8 that began at 5 is not over at 21, as the counter that wraps at
      10 shows 1 by then. */
  method LateCheckMisses(counts: nat) returns (expired: bool)
    requires counts > 2
    ensures EnteredAt(TimeOut(0, 5), 5, 0, 10, counts) && Shows(21, 2, 1, 10)
    ensures !expired && 21 - 5 >= 8
  {
    var aborted, timeOut, left;
    expired, aborted, timeOut, left := CheckForTimeOut(false, 2, 1, TimeOut(0, 5), 8, 10);
  }

  lemma NextCount(e: nat, counts: nat)
    requires counts >= 2
    ensures (e + 1) % counts != e % counts
  {
    var q, m := e / counts, e % counts;
    assert e == q * counts + m;
    if m + 1 < counts {
      DivModUnique(e + 1, q, m + 1, counts);
    } else {
      assert e + 1 == (q + 1) * counts;
      DivModUnique(e + 1, q + 1, 0, counts);
    }
  }

  /** With at most one overflow since the wait was last adjusted the answer is right. */
  lemma CheckWithinTwoRounds(start: nat, now: nat, e0: nat, e1: nat, tick: nat, timeOut: TimeOut,
                             ticksToWait: nat, round: nat, counts: nat)
    requires EnteredAt(timeOut, start, e0, round, counts) && Shows(now, e1, tick, round) && start <= now
    requires ticksToWait < round - 1 && counts >= 2 && e1 <= e0 + 1
    ensures Expires(e1 % counts, tick, timeOut, ticksToWait, round) <==> now - start >= ticksToWait
    ensures now - start < ticksToWait ==> Minus(tick, timeOut.timeOnEntering, round) == now - start
  {
    MinusIsElapsed(start, now, e0, timeOut.timeOnEntering, e1, tick, round);
    Parts(now - start, round);
    NextCount(e0, counts);
  }

  /** A call of xTaskCheckForTimeOut at a true time, given as epoch and tick. */
  datatype Call = Call(epoch: nat, tick: nat)

  function TimeOf(c: Call, round: nat): nat {
    c.epoch * round + c.tick
  }

  /** What a waiting task has after some calls: None once one has expired. */
  datatype Wait = Expired | Remaining(timeOut: TimeOut, ticksToWait: nat)

  function Check(w: Wait, c: Call, round: nat, counts: nat): Wait
    requires counts > 0 && c.tick < round && (w.Remaining? ==> w.timeOut.timeOnEntering < round)
  {
    if w.Expired? || Expires(c.epoch % counts, c.tick, w.timeOut, w.ticksToWait, round) then Expired
    else Remaining(TimeOut(c.epoch % counts, c.tick), w.ticksToWait - Minus(c.tick, w.timeOut.timeOnEntering, round))
  }

  function Checks(w: Wait, calls: seq<Call>, round: nat, counts: nat): Wait
    requires counts > 0 && (w.Remaining? ==> w.timeOut.timeOnEntering < round && w.ticksToWait < round - 1)
    requires forall i :: 0 <= i < |calls| ==> calls[i].tick < round
    decreases |calls|
  {
    if calls == [] then w else Checks(Check(w, calls[0], round, counts), calls[1..], round, counts)
  }

  /** Calls in order of time, with at most one overflow between two of them. */
  ghost predicate Spaced(start: nat, epoch: nat, calls: seq<Call>, round: nat)
    decreases |calls|
  {
    calls == [] ||
    (&& calls[0].tick < round && start <= TimeOf(calls[0], round) && calls[0].epoch <= epoch + 1
     && Spaced(TimeOf(calls[0], round), calls[0].epoch, calls[1..], round))
  }

  /** Over any number of calls the deadline, the entry time plus what remains,
      stays where it was, and the wait expires at the first call at which the
      true time elapsed has reached the original wait. */
  lemma {:induction false} DeadlineConserved(start: nat, epoch: nat, timeOut: TimeOut, ticksToWait: nat,
                                             calls: seq<Call>, round: nat, counts: nat)
    requires EnteredAt(timeOut, start, epoch, round, counts) && counts >= 2 && 0 < ticksToWait < round - 1
    requires Spaced(start, epoch, calls, round) && forall i :: 0 <= i < |calls| ==> calls[i].tick < round
    ensures var w := Checks(Remaining(timeOut, ticksToWait), calls, round, counts);
            && (w.Expired? <==> exists i :: 0 <= i < |calls| && start + ticksToWait <= TimeOf(calls[i], round))
            && (w.Remaining? && calls != [] ==>
                  var last := calls[|calls| - 1];
                  && EnteredAt(w.timeOut, TimeOf(last, round), last.epoch, round, counts)
                  && TimeOf(last, round) + w.ticksToWait == start + ticksToWait)
    decreases |calls|
  {
    if calls != [] {
      var c := calls[0];
      var now := TimeOf(c, round);
      CheckWithinTwoRounds(start, now, epoch, c.epoch, c.tick, timeOut, ticksToWait, round, counts);
      if now - start < ticksToWait {
        var left := ticksToWait - (now - start);
        DeadlineConserved(now, c.epoch, TimeOut(c.epoch % counts, c.tick), left, calls[1..], round, counts);
        assert forall i :: 1 <= i < |calls| ==> calls[i] == calls[1..][i - 1];
      } else {
        ExpiredStays(calls[1..], round, counts);
      }
    }
  }

  lemma {:induction false} ExpiredStays(calls: seq<Call>, round: nat, counts: nat)
    requires counts > 0 && forall i :: 0 <= i < |calls| ==> calls[i].tick < round
    ensures Checks(Expired, calls, round, counts) == Expired
    decreases |calls|
  {
    if calls != [] {
      ExpiredStays(calls[1..], round, counts);
    }
  }
}
