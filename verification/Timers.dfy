/** Software timers: the timer daemon of timers.c, for one core.

    A true time is unbounded; the daemon sees tick counts, which are true times
    modulo the round.  One timer, any one, is followed through everything the
    daemon does.
 */
module TimerArithmetic {
  import opened Arithmetic
  import opened Deadlines

  /** What prvInsertTimerInActiveList does with a timer. */
  datatype Verdict = ProcessNow | IntoCurrent | IntoOverflow

  function Decide(next: nat, timeNow: nat, command: nat, period: nat, round: nat): Verdict
    requires timeNow < round && command < round
  {
    if next <= timeNow then
      if Minus(timeNow, command, round) >= period then ProcessNow else IntoOverflow
    else if timeNow < command && next >= command then ProcessNow else IntoCurrent
  }

  /** The test sees how long ago the command was, up to whole rounds, and no more. */
  lemma DecideByDistance(timeNow: nat, command: nat, period: nat, round: nat)
    requires timeNow < round && command < round && 0 < period < round
    ensures var d := Minus(timeNow, command, round);
            var v := Decide(Plus(command, period, round), timeNow, command, period, round);
            && (v == ProcessNow <==> d >= period)
            && (v == IntoCurrent <==> d < period && timeNow + period - d < round)
            && (v == IntoOverflow <==> d < period && timeNow + period - d >= round)
  {
  }

  /** A timer started now is not to be processed now. */
  lemma FromNow(timeNow: nat, period: nat, round: nat)
    requires timeNow < round && 0 < period < round
    ensures var next := Plus(timeNow, period, round);
            && next == (if timeNow + period < round then timeNow + period else timeNow + period - round)
            && Decide(next, timeNow, timeNow, period, round) ==
               if timeNow + period < round then IntoCurrent else IntoOverflow
  {
    DecideByDistance(timeNow, timeNow, period, round);
  }

  /** The start of a round of the counter. */
  ghost predicate RoundAt(base: nat, now: nat, tick: nat, round: nat) {
    tick < round && base % round == 0 && now == base + tick
  }

  lemma CountInRound(base: nat, tick: nat, round: nat)
    requires tick < round && base % round == 0
    ensures (base + tick) % round == tick
  {
    DivModUnique(base + tick, base / round, tick, round);
  }

  lemma NextRound(base: nat, round: nat)
    requires round > 0 && base % round == 0
    ensures (base + round) % round == 0
  {
    DivModUnique(base + round, base / round + 1, 0, round);
  }

  lemma PlusShows(time: nat, ticks: nat, round: nat)
    requires 0 < round && ticks < round
    ensures (time + ticks) % round == Plus(time % round, ticks, round)
  {
    var q, m := time / round, time % round;
    assert time == q * round + m;
    if m + ticks < round {
      DivModUnique(time + ticks, q, m + ticks, round);
    } else {
      assert (q + 1) * round == q * round + round;
      DivModUnique(time + ticks, q + 1, m + ticks - round, round);
    }
  }

  /** The difference of two counts is the true time between them up to whole rounds. */
  lemma MinusShows(earlier: nat, later: nat, round: nat)
    requires 0 < round && earlier <= later
    ensures Minus(later % round, earlier % round, round) == (later - earlier) % round
  {
    var q, m, r, n := earlier / round, earlier % round, later / round, later % round;
    assert earlier == q * round + m && later == r * round + n;
    assert r * round - q * round == (r - q) * round;
    if n >= m {
      DivModUnique(later - earlier, r - q, n - m, round);
    } else {
      assert (r - q - 1) * round == (r - q) * round - round;
      DivModUnique(later - earlier, r - q - 1, n + round - m, round);
    }
  }

  lemma SmallRemainder(x: nat, round: nat)
    requires 0 < round
    ensures x % round <= x
    ensures x < round ==> x % round == x
    ensures x >= round ==> x % round < x
  {
    var q, m := x / round, x % round;
    assert x == q * round + m;
    if q >= 1 { MulMonotone(1, q, round); }
  }

  /** A command at true time c is judged rightly at now. */
  predicate JudgedRightly(c: int, now: int, period: nat, round: nat)
    requires round > 0
  {
    now - c < round || (now - c) % round >= period
  }

  /** The test is exact under wrap.  For a command at true time c processed at
      now, it says "process now" just when the expiry has passed if, and only
      if, the command is less than a round old or the part of a round it seems
      to be old already reaches the period. */
  lemma InsertionTestExact(c: nat, now: nat, period: nat, round: nat)
    requires c <= now && 0 < period < round
    ensures var v := Decide((c + period) % round, now % round, c % round, period, round);
            (v == ProcessNow <==> c + period <= now) <==> JudgedRightly(c, now, period, round)
  {
    PlusShows(c, period, round);
    MinusShows(c, now, round);
    SmallRemainder(now - c, round);
    DecideByDistance(now % round, c % round, period, round);
  }

  /** For a command less than a round old, a timer that is not processed now
      goes on the current list just when it expires in the round of now, and
      on the other list just when it expires in the next round. */
  lemma InsertionListExact(c: nat, now: nat, base: nat, period: nat, round: nat)
    requires c <= now && now - c < round && 0 < period < round && RoundAt(base, now, now % round, round)
    ensures var v := Decide((c + period) % round, now % round, c % round, period, round);
            && (v == ProcessNow <==> c + period <= now)
            && (v == IntoCurrent <==> now < c + period < base + round)
            && (v == IntoOverflow <==> base + round <= c + period)
    ensures base <= c + period < base + round ==> (c + period) % round == c + period - base
    ensures base + round <= c + period ==> (c + period) % round == c + period - base - round
    ensures c + period < base + 2 * round
  {
    PlusShows(c, period, round);
    MinusShows(c, now, round);
    SmallRemainder(now - c, round);
    DecideByDistance(now % round, c % round, period, round);
    NextRound(base, round);
    if base <= c + period < base + round {
      CountInRound(base, c + period - base, round);
    } else if base + round <= c + period {
      CountInRound(base + round, c + period - base - round, round);
    }
  }

  /** The daemon takes the counter to have wrapped once if a sample shows less
      than the one before, and not at all otherwise.  It is right if and only if
      the two samples are less than a round apart. */
  lemma WrapSeenExactly(base: nat, now: nat, tick: nat, at: nat, round: nat)
    requires RoundAt(base, now, tick, round) && now <= at
    ensures RoundAt(if at % round < tick then base + round else base, at, at % round, round) <==> at < now + round
  {
    if at < now + round {
      WrapSeen(base, now, tick, at, round);
    }
  }

  /** Of two samples less than a round apart, the later shows a smaller count
      just when the counter has wrapped in between, and it has wrapped once. */
  lemma WrapSeen(base: nat, now: nat, tick: nat, at: nat, round: nat)
    requires RoundAt(base, now, tick, round) && now <= at < now + round
    ensures at % round < tick <==> base + round <= at
    ensures at % round < tick ==> RoundAt(base + round, at, at % round, round)
    ensures at % round >= tick ==> RoundAt(base, at, at % round, round)
  {
    NextRound(base, round);
    if at < base + round {
      CountInRound(base, at - base, round);
    } else {
      CountInRound(base + round, at - base - round, round);
    }
  }
}

module TimerDaemon {
  import opened Arithmetic
  import opened ListModel
  import opened SleepClock
  import opened TimerArithmetic
  import D = Deadlines

  type Timer = nat

  /** A message on the timer command queue. */
  datatype Command =
    | Start(timer: Timer, value: nat)         // start or reset, with the time of the command
    | Stop(timer: Timer)
    | ChangePeriod(timer: Timer, value: nat)
    | Delete(timer: Timer)

  function CommandsFor(s: seq<Command>, x: Timer): seq<Command> {
    if s == [] then [] else (if s[0].timer == x then [s[0]] else []) + CommandsFor(s[1..], x)
  }

  lemma {:induction false} CommandsForAppend(s: seq<Command>, c: Command, x: Timer)
    ensures CommandsFor(s + [c], x) == CommandsFor(s, x) + if c.timer == x then [c] else []
  {
    if s == [] {
      assert s + [c] == [c] && [c][1..] == [];
    } else {
      CommandsForAppend(s[1..], c, x);
      assert (s + [c])[1..] == s[1..] + [c];
    }
  }

  /** Where one timer shows up: its values on the two lists and its commands. */
  datatype Sight = Sight(current: seq<nat>, overflow: seq<nat>, commands: seq<Command>)

  function See(x: Timer, current: seq<Entry<Timer>>, overflow: seq<Entry<Timer>>, commands: seq<Command>): Sight {
    Sight(TimesOf(current, x), TimesOf(overflow, x), CommandsFor(commands, x))
  }

  const NOWHERE := Sight([], [], [])

  /** A timer whose next expiry is at true time due shows up once: on the
      current list if it expires in this round, on the other list if in the
      next, or as a command given one period before it expires.  Commands are
      not sent before their time; the first may be sent at any time. */
  ghost predicate Located(x: Timer, start: nat, due: nat, period: nat, round: nat, base: nat, now: nat, s: Sight) {
    && 0 < period < round && period <= due
    && (|| (base <= due < base + round && due <= now + period && s == Sight([due - base], [], []))
        || (base + round <= due < base + 2 * round && due <= now + period && s == Sight([], [due - base - round], []))
        || ((due <= now + period || due == start + period) && s == Sight([], [], [Start(x, (due - period) % round)])))
  }

  /** The lists are in order, and hold tick counts. */
  ghost predicate ListsOk(current: seq<Entry<Timer>>, overflow: seq<Entry<Timer>>, round: nat) {
    && Sorted(current) && Sorted(overflow)
    && (forall i :: 0 <= i < |current| ==> current[i].value < round)
    && (forall i :: 0 <= i < |overflow| ==> overflow[i].value < round)
  }

  lemma InsertOk(s: seq<Entry<Timer>>, e: Entry<Timer>, round: nat)
    requires Sorted(s) && e.value < round && forall i :: 0 <= i < |s| ==> s[i].value < round
    ensures var r := InsertSorted(s, e); Sorted(r) && forall i :: 0 <= i < |r| ==> r[i].value < round
  {
    var k := InsertSortedStable(s, e);
    var r := InsertSorted(s, e);
    forall i | 0 <= i < |r|
      ensures r[i].value < round
    {
      assert r[i] == if i < k then s[i] else if i == k then e else s[i - 1];
    }
  }

  lemma PopOk(current: seq<Entry<Timer>>, overflow: seq<Entry<Timer>>, round: nat)
    requires ListsOk(current, overflow, round) && current != []
    ensures ListsOk(current[1..], overflow, round) && current[0].value < round
  {
  }

  lemma {:induction false} WithoutBelow(s: seq<Entry<Timer>>, t: Timer, round: nat)
    requires forall i :: 0 <= i < |s| ==> s[i].value < round
    ensures forall i :: 0 <= i < |Without(s, t)| ==> Without(s, t)[i].value < round
  {
    if s != [] {
      WithoutBelow(s[1..], t, round);
    }
  }

  /** The head of the current list that belongs to the followed timer is its
      next expiry, and nothing else of it is anywhere. */
  lemma HeadIsDue(x: Timer, start: nat, due: nat, period: nat, round: nat, base: nat, now: nat,
                  current: seq<Entry<Timer>>, overflow: seq<Entry<Timer>>, commands: seq<Command>)
    requires Located(x, start, due, period, round, base, now, See(x, current, overflow, commands))
    requires current != []
    ensures current[0].owner == x ==>
              due == base + current[0].value && See(x, current[1..], overflow, commands) == NOWHERE
    ensures current[0].owner != x ==>
              See(x, current[1..], overflow, commands) == See(x, current, overflow, commands)
  {
    if current[0].owner == x {
      var times, rest := TimesOf(current, x), TimesOf(current[1..], x);
      assert times == [current[0].value] + rest;
      assert |times| == 1 && times[0] == current[0].value;
    }
  }

  /** A timer put on a list, or sent back with its command, for an expiry one
      period after c. */
  lemma Relocated(x: Timer, start: nat, c: nat, period: nat, round: nat, base: nat, now: nat, v: Verdict,
                  current: seq<Entry<Timer>>, overflow: seq<Entry<Timer>>, commands: seq<Command>)
    requires See(x, current, overflow, commands) == NOWHERE
    requires c <= now && now - c < round && 0 < period < round && RoundAt(base, now, now % round, round)
    requires v == Decide((c + period) % round, now % round, c % round, period, round)
    ensures v == ProcessNow <==> c + period <= now
    ensures v == ProcessNow ==>
              Located(x, start, c + period, period, round, base, now,
                      See(x, current, overflow, commands + [Start(x, c % round)]))
    ensures v == IntoCurrent ==>
              Located(x, start, c + period, period, round, base, now,
                      See(x, InsertSorted(current, Entry((c + period) % round, x)), overflow, commands))
    ensures v == IntoOverflow ==>
              Located(x, start, c + period, period, round, base, now,
                      See(x, current, InsertSorted(overflow, Entry((c + period) % round, x)), commands))
  {
    InsertionListExact(c, now, base, period, round);
    var e := Entry((c + period) % round, x);
    TimesOfInsert(current, e, x);
    TimesOfInsert(overflow, e, x);
    CommandsForAppend(commands, Start(x, c % round), x);
  }

  /** A start command, sent at any time, of a timer that is nowhere yet. */
  lemma FollowedFromStart(x: Timer, start: nat, period: nat, round: nat, base: nat, now: nat,
                          current: seq<Entry<Timer>>, overflow: seq<Entry<Timer>>, commands: seq<Command>,
                          callbacks: seq<Timer>)
    requires See(x, current, overflow, commands) == NOWHERE && 0 < period < round && multiset(callbacks)[x] == 0
    ensures Located(x, start, start + period, period, round, base, now,
                    See(x, current, overflow, commands + [Start(x, start % round)]))
    ensures Counted(x, start, period, start + period, 0, callbacks)
  {
    CommandsForAppend(commands, Start(x, start % round), x);
  }

  /** Distance of the item values from the end of the round. */
  function Room(s: seq<Entry<Timer>>, round: nat): nat
    requires forall i :: 0 <= i < |s| ==> s[i].value < round
  {
    if s == [] then 0 else round - s[0].value + Room(s[1..], round)
  }

  lemma {:induction false} RoomInsert(s: seq<Entry<Timer>>, e: Entry<Timer>, round: nat)
    requires Sorted(s) && e.value < round && forall i :: 0 <= i < |s| ==> s[i].value < round
    ensures forall i :: 0 <= i < |InsertSorted(s, e)| ==> InsertSorted(s, e)[i].value < round
    ensures Room(InsertSorted(s, e), round) == Room(s, round) + round - e.value
  {
    InsertOk(s, e, round);
    if s != [] && s[0].value <= e.value {
      assert Sorted(s[1..]);
      RoomInsert(s[1..], e, round);
      assert InsertSorted(s, e)[1..] == InsertSorted(s[1..], e);
    } else {
      assert InsertSorted(s, e)[1..] == s;
    }
  }

  /** The k-th expiry after a start. */
  function Expiry(start: nat, period: nat, k: nat): nat {
    if k == 0 then start else Expiry(start, period, k - 1) + period
  }

  lemma {:induction false} ExpiryIsMultiple(start: nat, period: nat, k: nat)
    ensures Expiry(start, period, k) == start + k * period
  {
    if k > 0 {
      ExpiryIsMultiple(start, period, k - 1);
      assert k * period == (k - 1) * period + period;
    }
  }

  /** The callback has run once for each expiry before the next. */
  ghost predicate Counted(x: Timer, start: nat, period: nat, due: nat, fired: nat, callbacks: seq<Timer>) {
    due == Expiry(start, period, fired + 1) && multiset(callbacks)[x] == fired
  }

  /** Caught up: no command for the timer left, and the head of the current
      list not yet due.  Then the callback has run exactly once for each expiry
      up to now, and the next expiry is the first in the future. */
  lemma NoPeriodLost(x: Timer, start: nat, due: nat, fired: nat, period: nat, round: nat, base: nat, now: nat,
                     tick: nat, current: seq<Entry<Timer>>, overflow: seq<Entry<Timer>>, commands: seq<Command>,
                     callbacks: seq<Timer>)
    requires Located(x, start, due, period, round, base, now, See(x, current, overflow, commands))
    requires Counted(x, start, period, due, fired, callbacks)
    requires RoundAt(base, now, tick, round) && ListsOk(current, overflow, round)
    requires CommandsFor(commands, x) == [] && (current != [] ==> current[0].value > tick)
    ensures now < due == start + (multiset(callbacks)[x] + 1) * period
    ensures forall k: nat {:trigger Expiry(start, period, k)} ::
              start + k * period <= now <==> k <= multiset(callbacks)[x]
    ensures due - period <= now
  {
    if base + round > due {
      AboveTimes(current, x, tick);
      assert TimesOf(current, x)[0] == due - base;
    }
    ExpiryIsMultiple(start, period, fired + 1);
    assert (fired + 1) * period == fired * period + period;
    forall k: nat
      ensures start + k * period <= now <==> k <= fired
    {
      if k <= fired { MulMonotone(k, fired, period); } else { MulMonotone(fired + 1, k, period); }
    }
  }

  lemma CallbackCounted(x: Timer, start: nat, period: nat, due: nat, fired: nat, callbacks: seq<Timer>, t: Timer)
    requires Counted(x, start, period, due, fired, callbacks)
    ensures t == x ==> Counted(x, start, period, due + period, fired + 1, callbacks + [t])
    ensures t != x ==> Counted(x, start, period, due, fired, callbacks + [t])
  {
  }

  /** Where the followed timer is, or that the daemon has it in hand. */
  ghost predicate Kept(inHand: bool, x: Timer, start: nat, due: nat, period: nat, round: nat, base: nat, now: nat,
                       s: Sight) {
    if inHand then s == NOWHERE && 0 < period < round && period <= due
    else Located(x, start, due, period, round, base, now, s)
  }

  /** One timer of the current list is worked off as the counter has wrapped:
      an auto-reload timer goes back on the list, or gets a new command if it
      next expires after the wrap. */
  lemma ReloadedBeforeSwitch(x: Timer, start: nat, c: nat, period: nat, round: nat, base: nat, now: nat, value: nat,
                             current: seq<Entry<Timer>>, overflow: seq<Entry<Timer>>, commands: seq<Command>)
    requires See(x, current, overflow, commands) == NOWHERE && ListsOk(current, overflow, round)
    requires c == base + value <= now && value < round && 0 < period < round && base % round == 0
    ensures var reload := D.Plus(value, period, round);
            if reload > value then
              Located(x, start, c + period, period, round, base, now,
                      See(x, InsertSorted(current, Entry(reload, x)), overflow, commands))
            else
              Located(x, start, c + period, period, round, base, now,
                      See(x, current, overflow, commands + [Start(x, value)]))
  {
    var reload := D.Plus(value, period, round);
    if reload > value {
      TimesOfInsert(current, Entry(reload, x), x);
    } else {
      CommandsForAppend(commands, Start(x, value), x);
      CountInRound(base, value, round);
    }
  }

  /** The lists change places: what was due in the next round is due in this one. */
  lemma KeptBySwap(inHand: bool, x: Timer, start: nat, due: nat, period: nat, round: nat, base: nat, now: nat,
                   overflow: seq<Entry<Timer>>, commands: seq<Command>)
    requires Kept(inHand, x, start, due, period, round, base, now, See(x, [], overflow, commands))
    ensures Kept(inHand, x, start, due, period, round, base + round, now, See(x, overflow, [], commands))
  {
  }

  lemma KeptLater(inHand: bool, x: Timer, start: nat, due: nat, period: nat, round: nat, base: nat, now: nat, at: nat,
                  s: Sight)
    requires Kept(inHand, x, start, due, period, round, base, now, s) && now <= at
    ensures Kept(inHand, x, start, due, period, round, base, at, s)
  {
  }

  lemma LaterInRound(inHand: bool, x: Timer, start: nat, due: nat, period: nat, round: nat, base: nat, now: nat,
                     tick: nat, at: nat, s: Sight)
    requires Kept(inHand, x, start, due, period, round, base, now, s)
    requires RoundAt(base, now, tick, round) && now <= at < now + round
    ensures Kept(inHand, x, start, due, period, round, base, at, s)
    ensures RoundAt(if at % round < tick then base + round else base, at, at % round, round)
    ensures base % round == 0 && (at % round < tick ==> base + round <= at)
  {
    KeptLater(inHand, x, start, due, period, round, base, now, at, s);
    WrapSeen(base, now, tick, at, round);
  }

  /** What happens to another timer is not seen. */
  lemma OthersUnseen(x: Timer, e: Entry<Timer>, c: Command,
                     current: seq<Entry<Timer>>, overflow: seq<Entry<Timer>>, commands: seq<Command>)
    requires e.owner != x && c.timer != x
    ensures See(x, InsertSorted(current, e), overflow, commands) == See(x, current, overflow, commands)
    ensures See(x, current, InsertSorted(overflow, e), commands) == See(x, current, overflow, commands)
    ensures See(x, current, overflow, commands + [c]) == See(x, current, overflow, commands)
  {
    TimesOfInsert(current, e, x);
    TimesOfInsert(overflow, e, x);
    CommandsForAppend(commands, c, x);
  }

  /** The same for any timer: the followed one gets its next expiry, and stays
      where it is when the timer is another. */
  lemma Reloaded(t: Timer, x: Timer, start: nat, due: nat, period: nat, round: nat, base: nat, now: nat, tick: nat,
                 value: nat, own: nat, next: nat, v: Verdict, l: Lists)
    returns (s: Sight)
    requires RoundAt(base, now, tick, round) && 0 < period < round && 0 < own < round && value <= tick
    requires Kept(t == x, x, start, due, period, round, base, now, SeeIn(x, l))
    requires t == x ==> due == base + value && own == period
    requires next == D.Plus(value, own, round) && v == Decide(next, tick, value, own, round)
    ensures s == SeeIn(x, Placed(v, Entry(next, t), Start(t, value), l))
    ensures Located(x, start, if t == x then due + period else due, period, round, base, now, s)
  {
    s := SeeIn(x, Placed(v, Entry(next, t), Start(t, value), l));
    if t == x {
      ReloadedInPlace(x, start, period, round, base, now, tick, value, l);
    } else {
      PlacedUnseen(x, v, Entry(next, t), Start(t, value), l);
    }
  }

  datatype Lists = Lists(current: seq<Entry<Timer>>, overflow: seq<Entry<Timer>>, commands: seq<Command>)

  /** The lists and the queue after an insertion, where a timer to be processed
      now is sent a command. */
  function Placed(v: Verdict, e: Entry<Timer>, c: Command, l: Lists): Lists {
    match v
    case ProcessNow => l.(commands := l.commands + [c])
    case IntoCurrent => l.(current := InsertSorted(l.current, e))
    case IntoOverflow => l.(overflow := InsertSorted(l.overflow, e))
  }

  function SeeIn(x: Timer, l: Lists): Sight {
    See(x, l.current, l.overflow, l.commands)
  }

  /** The head of the current list, taken in hand, goes back for its next expiry. */
  lemma ReloadedInPlace(x: Timer, start: nat, period: nat, round: nat, base: nat, now: nat, tick: nat, value: nat,
                        l: Lists)
    requires SeeIn(x, l) == NOWHERE && RoundAt(base, now, tick, round) && 0 < period < round && value <= tick
    ensures var next := D.Plus(value, period, round);
            Located(x, start, base + value + period, period, round, base, now,
                    SeeIn(x, Placed(Decide(next, tick, value, period, round), Entry(next, x), Start(x, value), l)))
  {
    CountInRound(base, value, round);
    CountInRound(base, tick, round);
    PlusShows(base + value, period, round);
    Relocated(x, start, base + value, period, round, base, now,
              Decide(D.Plus(value, period, round), tick, value, period, round), l.current, l.overflow, l.commands);
  }

  lemma PlacedUnseen(x: Timer, v: Verdict, e: Entry<Timer>, c: Command, l: Lists)
    requires e.owner != x && c.timer != x
    ensures SeeIn(x, Placed(v, e, c, l)) == SeeIn(x, l)
  {
    OthersUnseen(x, e, c, l.current, l.overflow, l.commands);
  }

  /** A start command of the followed timer, judged rightly: it is inserted, or
      its callback runs and the next command is sent. */
  lemma StartedInPlace(x: Timer, start: nat, due: nat, period: nat, round: nat, base: nat, now: nat, tick: nat,
                       value: nat, l: Lists)
    requires SeeIn(x, l) == NOWHERE && RoundAt(base, now, tick, round) && 0 < period < round
    requires period <= due <= now + period && value == (due - period) % round
    requires JudgedRightly(due - period, now, period, round)
    ensures var next := D.Plus(value, period, round);
            var v := Decide(next, tick, value, period, round);
            && (v == ProcessNow <==> due <= now)
            && Located(x, start, if v == ProcessNow then due + period else due, period, round, base, now,
                       SeeIn(x, Placed(v, Entry(next, x), Start(x, next), l)))
  {
    CountInRound(base, tick, round);
    PlusShows(due - period, period, round);
    if now - (due - period) < round {
      Relocated(x, start, due - period, period, round, base, now, Decide(due % round, tick, value, period, round),
                l.current, l.overflow, l.commands);
      CommandsForAppend(l.commands, Start(x, due % round), x);
    } else {
      InsertionTestExact(due - period, now, period, round);
      StartSent(x, start, due, period, round, base, now, l.current, l.overflow, l.commands);
    }
  }

  lemma StartSent(x: Timer, start: nat, due: nat, period: nat, round: nat, base: nat, now: nat,
                  current: seq<Entry<Timer>>, overflow: seq<Entry<Timer>>, commands: seq<Command>)
    requires See(x, current, overflow, commands) == NOWHERE && 0 < period < round && due <= now
    ensures Located(x, start, due + period, period, round, base, now,
                    See(x, current, overflow, commands + [Start(x, due % round)]))
  {
    CommandsForAppend(commands, Start(x, due % round), x);
  }

  lemma StartUnseen(x: Timer, c: Command, current: seq<Entry<Timer>>, overflow: seq<Entry<Timer>>,
                    commands: seq<Command>)
    ensures c.timer != x ==> See(x, current, overflow, commands + [c]) == See(x, current, overflow, commands)
  {
    CommandsForAppend(commands, c, x);
  }

  /** When the head of the current list, if any, is not due yet, the followed
      timer expires at the head's time or later. */
  lemma TimeLeft(x: Timer, start: nat, due: nat, period: nat, round: nat, base: nat, now: nat, tick: nat,
                 current: seq<Entry<Timer>>, overflow: seq<Entry<Timer>>, commands: seq<Command>)
    requires Located(x, start, due, period, round, base, now, See(x, current, overflow, commands))
    requires RoundAt(base, now, tick, round) && ListsOk(current, overflow, round)
    requires CommandsFor(commands, x) == [] && (current != [] ==> current[0].value > tick)
    ensures now < due <= now + period && (current == [] ==> overflow != [])
    ensures if current == [] then base + round <= due else base + current[0].value <= due
  {
    if due < base + round {
      TimesOfBounds(current, x, if current == [] then 0 else current[0].value, round);
      assert TimesOf(current, x)[0] == due - base;
    }
  }

  /** The first command of the queue is taken off, and its timer off its list. */
  lemma CommandTaken(x: Timer, start: nat, due: nat, period: nat, round: nat, base: nat, now: nat,
                     current: seq<Entry<Timer>>, overflow: seq<Entry<Timer>>, commands: seq<Command>)
    requires Located(x, start, due, period, round, base, now, See(x, current, overflow, commands)) && commands != []
    ensures var t := commands[0].timer;
            See(x, Without(current, t), Without(overflow, t), commands[1..]) ==
            if t == x then NOWHERE else See(x, current, overflow, commands)
    ensures commands[0].timer == x ==>
              commands[0] == Start(x, (due - period) % round) && (due <= now + period || due == start + period)
  {
    TimesOfWithout(current, commands[0].timer, x);
    TimesOfWithout(overflow, commands[0].timer, x);
    if commands[0].timer == x {
      var all, rest := CommandsFor(commands, x), CommandsFor(commands[1..], x);
      assert all == [commands[0]] + rest;
      assert |all| == 1 && all[0] == commands[0];
    }
  }

  lemma CommandInHand(x: Timer, start: nat, due: nat, period: nat, round: nat, base: nat, now: nat,
                      current: seq<Entry<Timer>>, overflow: seq<Entry<Timer>>, commands: seq<Command>)
    requires Kept(false, x, start, due, period, round, base, now, See(x, current, overflow, commands)) && commands != []
    ensures var t := commands[0].timer;
            Kept(t == x, x, start, due, period, round, base, now,
                 See(x, Without(current, t), Without(overflow, t), commands[1..]))
    ensures commands[0].timer == x ==>
              && commands[0] == Start(x, (due - period) % round) && period <= due
              && (due <= now + period || due == start + period)
  {
    CommandTaken(x, start, due, period, round, base, now, current, overflow, commands);
  }

  predicate CommandOk(c: Command, round: nat) {
    (c.Start? ==> c.value < round) && (c.ChangePeriod? ==> 0 < c.value < round)
  }

  ghost predicate CommandsOk(commands: seq<Command>, round: nat) {
    forall i :: 0 <= i < |commands| ==> CommandOk(commands[i], round)
  }

  ghost predicate PeriodsOk(period: map<Timer, nat>, round: nat) {
    forall t :: t in period ==> 0 < period[t] < round
  }

  /** A timer goes where the verdict says. */
  ghost predicate Inserted(v: Verdict, e: Entry<Timer>, current: seq<Entry<Timer>>, overflow: seq<Entry<Timer>>,
                           current': seq<Entry<Timer>>, overflow': seq<Entry<Timer>>) {
    && current' == (if v == IntoCurrent then InsertSorted(current, e) else current)
    && overflow' == (if v == IntoOverflow then InsertSorted(overflow, e) else overflow)
  }

  lemma PeriodsWith(period: map<Timer, nat>, t: Timer, value: nat, round: nat)
    requires PeriodsOk(period, round) && 0 < value < round
    ensures PeriodsOk(period[t := value], round)
  {
  }

  lemma WithoutOk(current: seq<Entry<Timer>>, overflow: seq<Entry<Timer>>, t: Timer, round: nat)
    requires ListsOk(current, overflow, round)
    ensures ListsOk(Without(current, t), Without(overflow, t), round)
  {
    WithoutKeepsOrder(current, t, 0);
    WithoutKeepsOrder(overflow, t, 0);
    WithoutBelow(current, t, round);
    WithoutBelow(overflow, t, round);
  }

  lemma CommandsSplit(commands: seq<Command>, round: nat)
    requires CommandsOk(commands, round) && commands != []
    ensures CommandOk(commands[0], round) && CommandsOk(commands[1..], round)
  {
  }

  // ---------- Every timer, followed or not

  /** Working off the current list, for one timer as it shows up and by how often
      its callback has run: each item is traded for a callback, and only an
      auto-reload timer comes back. */
  ghost predicate Served(auto: bool, s: Sight, n: nat, s': Sight, n': nat) {
    && s'.overflow == s.overflow && n' + |s'.current| >= n + |s.current|
    && (s.current == [] ==> s' == s && n' == n)
    && (!auto ==> s'.commands == s.commands && n' + |s'.current| == n + |s.current|)
  }

  ghost predicate AllServed(auto: set<Timer>, l: Lists, ran: seq<Timer>, l': Lists, ran': seq<Timer>) {
    forall u :: Served(u in auto, SeeIn(u, l), multiset(ran)[u], SeeIn(u, l'), multiset(ran')[u])
  }

  lemma ServedOn(auto: set<Timer>, l: Lists, ran: seq<Timer>, l': Lists, ran': seq<Timer>, l'': Lists,
                 ran'': seq<Timer>)
    requires AllServed(auto, l, ran, l', ran') && AllServed(auto, l', ran', l'', ran'')
    ensures AllServed(auto, l, ran, l'', ran'')
  {
    forall u
      ensures Served(u in auto, SeeIn(u, l), multiset(ran)[u], SeeIn(u, l''), multiset(ran'')[u])
    {
      assert Served(u in auto, SeeIn(u, l), multiset(ran)[u], SeeIn(u, l'), multiset(ran')[u]);
      assert Served(u in auto, SeeIn(u, l'), multiset(ran')[u], SeeIn(u, l''), multiset(ran'')[u]);
    }
  }

  /** The timer taken off the head goes back on the list, is sent a command, or
      is left alone if it does not reload. */
  ghost predicate WorkedOff(t: Timer, value: nat, reload: nat, auto: bool, l: Lists, l': Lists) {
    if !auto then l' == l
    else if reload > value then l' == l.(current := InsertSorted(l.current, Entry(reload, t)))
    else l' == l.(commands := l.commands + [Start(t, value)])
  }

  lemma {:induction false} TimesCounted(s: seq<Entry<Timer>>, e: Entry<Timer>, t: Timer)
    ensures |TimesOf(InsertSorted(s, e), t)| == |TimesOf(s, t)| + if e.owner == t then 1 else 0
  {
    if s == [] || s[0].value > e.value {
      assert ([e] + s)[1..] == s;
    } else {
      TimesCounted(s[1..], e, t);
      assert ([s[0]] + InsertSorted(s[1..], e))[1..] == InsertSorted(s[1..], e);
    }
  }

  lemma HeadServedFor(u: Timer, auto: bool, t: Timer, value: nat, reload: nat, l: Lists, rest: Lists, l': Lists)
    requires l.current != [] && l.current[0].owner == t && rest == l.(current := l.current[1..])
    requires WorkedOff(t, value, reload, auto, rest, l')
    ensures SeeIn(u, l').overflow == SeeIn(u, l).overflow
    ensures u != t ==> SeeIn(u, l') == SeeIn(u, l)
    ensures u == t ==> SeeIn(u, l).current != [] && |SeeIn(u, l').current| + 1 >= |SeeIn(u, l).current|
    ensures u == t && !auto ==>
              SeeIn(u, l').commands == SeeIn(u, l).commands && |SeeIn(u, l').current| + 1 == |SeeIn(u, l).current|
  {
    TimesCounted(rest.current, Entry(reload, t), u);
    if u != t {
      OthersUnseen(u, Entry(reload, t), Start(t, value), rest.current, rest.overflow, rest.commands);
    }
  }

  /** One timer of the current list worked off. */
  lemma HeadServed(auto: set<Timer>, t: Timer, value: nat, reload: nat, l: Lists, ran: seq<Timer>, l': Lists)
    requires l.current != [] && l.current[0].owner == t
    requires WorkedOff(t, value, reload, t in auto, l.(current := l.current[1..]), l')
    ensures AllServed(auto, l, ran, l', ran + [t])
  {
    forall u
      ensures Served(u in auto, SeeIn(u, l), multiset(ran)[u], SeeIn(u, l'), multiset(ran + [t])[u])
    {
      HeadServedFor(u, t in auto, t, value, reload, l, l.(current := l.current[1..]), l');
    }
  }

  /** The switch of the lists, for one timer: each item on the old current list
      has had a callback, and a timer that does not reload nothing else. */
  ghost predicate PassesSwitch(auto: bool, s: Sight, n: nat, s': Sight, n': nat) {
    && s'.current == s.overflow && s'.overflow == [] && n' >= n + |s.current|
    && (s.current == [] ==> s'.commands == s.commands && n' == n)
    && (!auto ==> s'.commands == s.commands && n' == n + |s.current|)
  }

  /** The sample of the time, for all timers but one, or for all of them. */
  ghost predicate Sampled(switched: bool, auto: set<Timer>, l: Lists, ran: seq<Timer>, l': Lists, ran': seq<Timer>) {
    if switched then
      forall u :: PassesSwitch(u in auto, SeeIn(u, l), multiset(ran)[u], SeeIn(u, l'), multiset(ran')[u])
    else l' == l && ran' == ran
  }

  lemma NotSampled(auto: set<Timer>, l: Lists, ran: seq<Timer>)
    ensures Sampled(false, auto, l, ran, l, ran)
  {
  }

  lemma SwappedAfter(auto: set<Timer>, l: Lists, ran: seq<Timer>, l': Lists, ran': seq<Timer>)
    requires AllServed(auto, l, ran, l', ran') && l'.current == []
    ensures Sampled(true, auto, l, ran, Lists(l'.overflow, [], l'.commands), ran')
  {
    forall u
      ensures PassesSwitch(u in auto, SeeIn(u, l), multiset(ran)[u],
                           SeeIn(u, Lists(l'.overflow, [], l'.commands)), multiset(ran')[u])
    {
      assert Served(u in auto, SeeIn(u, l), multiset(ran)[u], SeeIn(u, l'), multiset(ran')[u]);
    }
  }

  /** A timer that was on no list is on the list that the verdict names, or its
      callback has run and it has been sent the commands that follow. */
  ghost predicate PutAt(v: Verdict, next: nat, back: seq<Command>, s: Sight, n: nat, s': Sight, n': nat) {
    match v
    case ProcessNow => s' == s.(commands := s.commands + back) && n' == n + 1
    case IntoCurrent => s' == s.(current := [next]) && n' == n
    case IntoOverflow => s' == s.(overflow := [next]) && n' == n
  }

  /** The same on the lists themselves. */
  ghost predicate CarriedOut(v: Verdict, e: Entry<Timer>, back: seq<Command>, l: Lists, ran: seq<Timer>,
                             l': Lists, ran': seq<Timer>) {
    match v
    case ProcessNow => l' == l.(commands := l.commands + back) && ran' == ran + [e.owner]
    case IntoCurrent => l' == l.(current := InsertSorted(l.current, e)) && ran' == ran
    case IntoOverflow => l' == l.(overflow := InsertSorted(l.overflow, e)) && ran' == ran
  }

  lemma CarriedOutSeen(u: Timer, v: Verdict, e: Entry<Timer>, back: seq<Command>, l: Lists, ran: seq<Timer>,
                       l': Lists, ran': seq<Timer>)
    requires CarriedOut(v, e, back, l, ran, l', ran')
    requires TimesOf(l.current, e.owner) == TimesOf(l.overflow, e.owner) == []
    requires back == [] || (|back| == 1 && back[0].timer == e.owner)
    ensures if u == e.owner then
              PutAt(v, e.value, back, SeeIn(u, l), multiset(ran)[u], SeeIn(u, l'), multiset(ran')[u])
            else SeeIn(u, l') == SeeIn(u, l) && multiset(ran')[u] == multiset(ran)[u]
  {
    TimesOfInsert(l.current, e, u);
    TimesOfInsert(l.overflow, e, u);
    if back == [] {
      assert l.commands + back == l.commands;
      assert SeeIn(u, l).commands + back == SeeIn(u, l).commands;
    } else {
      assert back == [back[0]];
      CommandsForAppend(l.commands, back[0], u);
    }
  }

  /** On the list of the round in which it expires, value ticks from now. */
  ghost predicate RunsFromNow(t: Timer, value: nat, tick: nat, round: nat, l: Lists, ran: seq<Timer>,
                              l': Lists, ran': seq<Timer>) {
    CarriedOut(if tick + value < round then IntoCurrent else IntoOverflow, Entry(FromNowAt(tick, value, round), t), [],
               l, ran, l', ran')
  }

  function FromNowAt(tick: nat, value: nat, round: nat): nat {
    if tick + value < round then tick + value else tick + value - round
  }

  /** What a command does at a sample that shows tick. */
  ghost predicate Effect(m: Command, tick: nat, period: nat, auto: bool, round: nat, l: Lists, ran: seq<Timer>,
                         l': Lists, ran': seq<Timer>)
    requires tick < round && period < round && CommandOk(m, round)
  {
    match m
    case Start(t, value) =>
      var next := D.Plus(value, period, round);
      CarriedOut(Decide(next, tick, value, period, round), Entry(next, t), if auto then [Start(t, next)] else [],
                 l, ran, l', ran')
    case ChangePeriod(t, value) => RunsFromNow(t, value, tick, round, l, ran, l', ran')
    case _ => l' == l && ran' == ran
  }

  /** The same as the timer of the command shows up. */
  ghost predicate Obeyed(m: Command, tick: nat, period: nat, auto: bool, round: nat, s: Sight, n: nat,
                         s': Sight, n': nat)
    requires tick < round && period < round && CommandOk(m, round)
  {
    match m
    case Start(t, value) =>
      var next := D.Plus(value, period, round);
      PutAt(Decide(next, tick, value, period, round), next, if auto then [Start(t, next)] else [], s, n, s', n')
    case ChangePeriod(t, value) =>
      PutAt(if tick + value < round then IntoCurrent else IntoOverflow, FromNowAt(tick, value, round), [],
            s, n, s', n')
    case _ => s' == s && n' == n
  }

  lemma EffectSeen(m: Command, tick: nat, period: nat, auto: bool, round: nat, l: Lists, ran: seq<Timer>,
                   l': Lists, ran': seq<Timer>, u: Timer)
    requires tick < round && period < round && CommandOk(m, round)
    requires Effect(m, tick, period, auto, round, l, ran, l', ran')
    requires TimesOf(l.current, m.timer) == TimesOf(l.overflow, m.timer) == []
    ensures if u == m.timer then
              Obeyed(m, tick, period, auto, round, SeeIn(u, l), multiset(ran)[u], SeeIn(u, l'), multiset(ran')[u])
            else SeeIn(u, l') == SeeIn(u, l) && multiset(ran')[u] == multiset(ran)[u]
  {
    match m
    case Start(t, value) =>
      var next := D.Plus(value, period, round);
      CarriedOutSeen(u, Decide(next, tick, value, period, round), Entry(next, t),
                     if auto then [Start(t, next)] else [], l, ran, l', ran');
    case ChangePeriod(t, value) =>
      CarriedOutSeen(u, if tick + value < round then IntoCurrent else IntoOverflow,
                     Entry(FromNowAt(tick, value, round), t), [], l, ran, l', ran');
    case _ =>
  }

  /** A command and its timer taken off the queue and the lists. */
  function Taken(l: Lists): Lists
    requires l.commands != []
  {
    var t := l.commands[0].timer;
    Lists(Without(l.current, t), Without(l.overflow, t), l.commands[1..])
  }

  lemma TakenSeen(l: Lists, u: Timer)
    requires l.commands != []
    ensures var t := l.commands[0].timer;
            SeeIn(u, Taken(l)) == if u == t then Sight([], [], CommandsFor(l.commands[1..], t)) else SeeIn(u, l)
  {
    TimesOfWithout(l.current, l.commands[0].timer, u);
    TimesOfWithout(l.overflow, l.commands[0].timer, u);
  }

  /** All timers but that of the command are as the sample leaves them. */
  ghost predicate OthersSampled(t: Timer, switched: bool, auto: set<Timer>, l: Lists, ran: seq<Timer>,
                                l': Lists, ran': seq<Timer>) {
    forall u | u != t ::
      if switched then PassesSwitch(u in auto, SeeIn(u, l), multiset(ran)[u], SeeIn(u, l'), multiset(ran')[u])
      else SeeIn(u, l') == SeeIn(u, l) && multiset(ran')[u] == multiset(ran)[u]
  }

  /** Taken off, the sample, and carried out: for the timer of the command it
      comes to the command alone, for the others to the sample alone. */
  lemma CommandObeyed(l: Lists, ran: seq<Timer>, switched: bool, auto: set<Timer>, l1: Lists, ran1: seq<Timer>,
                      tick: nat, period: nat, round: nat, l2: Lists, ran2: seq<Timer>)
    requires l.commands != [] && tick < round && period < round && CommandOk(l.commands[0], round)
    requires Sampled(switched, auto, Taken(l), ran, l1, ran1)
    requires var m := l.commands[0]; Effect(m, tick, period, m.timer in auto, round, l1, ran1, l2, ran2)
    ensures var m := l.commands[0];
            && Obeyed(m, tick, period, m.timer in auto, round, Sight([], [], CommandsFor(l.commands[1..], m.timer)),
                      multiset(ran)[m.timer], SeeIn(m.timer, l2), multiset(ran2)[m.timer])
            && OthersSampled(m.timer, switched, auto, l, ran, l2, ran2)
  {
    var m := l.commands[0];
    TakenSeen(l, m.timer);
    SampleSpares(m.timer, switched, auto, Taken(l), ran, l1, ran1);
    EffectSeen(m, tick, period, m.timer in auto, round, l1, ran1, l2, ran2, m.timer);
    forall u | u != m.timer
      ensures if switched then
                PassesSwitch(u in auto, SeeIn(u, l), multiset(ran)[u], SeeIn(u, l2), multiset(ran2)[u])
              else SeeIn(u, l2) == SeeIn(u, l) && multiset(ran2)[u] == multiset(ran)[u]
    {
      TakenSeen(l, u);
      SampleSeen(u, switched, auto, Taken(l), ran, l1, ran1);
      EffectSeen(m, tick, period, m.timer in auto, round, l1, ran1, l2, ran2, u);
    }
  }

  lemma SampleSeen(u: Timer, switched: bool, auto: set<Timer>, l: Lists, ran: seq<Timer>, l': Lists, ran': seq<Timer>)
    requires Sampled(switched, auto, l, ran, l', ran')
    ensures if switched then PassesSwitch(u in auto, SeeIn(u, l), multiset(ran)[u], SeeIn(u, l'), multiset(ran')[u])
            else SeeIn(u, l') == SeeIn(u, l) && multiset(ran')[u] == multiset(ran)[u]
  {
  }

  /** A timer on no list is left alone by the sample. */
  lemma SampleSpares(u: Timer, switched: bool, auto: set<Timer>, l: Lists, ran: seq<Timer>,
                     l': Lists, ran': seq<Timer>)
    requires Sampled(switched, auto, l, ran, l', ran') && TimesOf(l.current, u) == TimesOf(l.overflow, u) == []
    ensures SeeIn(u, l') == SeeIn(u, l) && multiset(ran')[u] == multiset(ran)[u]
  {
    SampleSeen(u, switched, auto, l, ran, l', ran');
  }

  class Daemon {
    const round: nat                        // TickType_t counts modulo round
    var current: seq<Entry<Timer>>          // the list at pxCurrentTimerList
    var overflow: seq<Entry<Timer>>         // the list at pxOverflowTimerList
    var commands: seq<Command>              // xTimerQueue
    var lastTime: nat                       // xLastTime of prvSampleTimeNow
    var period: map<Timer, nat>             // xTimerPeriodInTicks, one tick for timers not entered
    var autoReload: set<Timer>              // uxAutoReload
    var callbacks: seq<Timer>               // the timers whose callback has run, in order

    ghost const x: Timer                    // the timer followed, started at true time start
    ghost const start: nat
    ghost var due: nat                      // its next expiry
    ghost var fired: nat                    // how many have passed
    ghost var now: nat                      // the true time of the last sample
    ghost var base: nat                     // and the start of its round
    ghost var punctual: bool                // no sample was a round late, no command of the timer misjudged

    function PeriodOf(t: Timer): nat
      reads this`period
    {
      if t in period then period[t] else 1
    }

    ghost predicate ListsValid()
      reads this`current, this`overflow, this`commands, this`period
    {
      round >= 2 && ListsOk(current, overflow, round) && CommandsOk(commands, round) && PeriodsOk(period, round)
    }

    ghost predicate Valid()
      reads this`current, this`overflow, this`commands, this`period, this`base, this`now, this`lastTime, this`punctual
    {
      ListsValid() && lastTime < round && (punctual ==> RoundAt(base, now, lastTime, round))
    }

    ghost function All(): Lists
      reads this`current, this`overflow, this`commands
    {
      Lists(current, overflow, commands)
    }

    /** The followed timer is in one place, unless the daemon has it in hand. */
    ghost predicate InPlace(inHand: bool)
      reads this`current, this`overflow, this`commands, this`period, this`base, this`now, this`due, this`punctual
    {
      punctual ==> Kept(inHand, x, start, due, PeriodOf(x), round, base, now, See(x, current, overflow, commands))
    }

    /** No callback of the followed timer has been missed or doubled. */
    ghost predicate Exact()
      reads this`period, this`due, this`fired, this`callbacks, this`punctual
    {
      punctual ==> Counted(x, start, PeriodOf(x), due, fired, callbacks)
    }

    /** Nothing but the start command of the followed timer, given at its time. */
    constructor (round: nat, period: map<Timer, nat>, autoReload: set<Timer>, x: Timer, startTick: nat,
                 ghost start: nat)
      requires round >= 2 && PeriodsOk(period, round) && x in autoReload && startTick == start % round
      ensures Valid() && InPlace(false) && Exact() && punctual && this.round == round && this.x == x
      ensures this.start == start
      ensures this.period == period && this.autoReload == autoReload && current == overflow == [] && callbacks == []
      ensures commands == [Start(x, startTick)] && now == 0
    {
      this.round, this.period, this.autoReload := round, period, autoReload;
      this.x, this.start := x, start;
      current, overflow, callbacks, lastTime := [], [], [], 0;
      commands := [] + [Start(x, startTick)];
      now, base, fired, punctual := 0, 0, 0, true;
      due := start + if x in period then period[x] else 1;
      new;
      FollowedFromStart(x, start, PeriodOf(x), round, base, now, [], [], [], []);
      assert Expiry(start, PeriodOf(x), 1) == Expiry(start, PeriodOf(x), 0) + PeriodOf(x);
    }

    /** prvInsertTimerInActiveList. */
    method InsertTimerInActiveList(t: Timer, nextExpiryTime: nat, timeNow: nat, commandTime: nat)
      returns (processTimerNow: bool)
      requires ListsOk(current, overflow, round) && nextExpiryTime < round && timeNow < round && commandTime < round
      modifies this`current, this`overflow
      ensures ListsOk(current, overflow, round)
      ensures var v, e := Decide(nextExpiryTime, timeNow, commandTime, PeriodOf(t), round), Entry(nextExpiryTime, t);
              && (processTimerNow <==> v == ProcessNow)
              && Inserted(v, e, old(current), old(overflow), current, overflow)
      ensures t != x ==> See(x, current, overflow, commands) == old(See(x, current, overflow, commands))
    {
      processTimerNow := false;
      var e := Entry(nextExpiryTime, t);
      if t != x {
        OthersUnseen(x, e, Stop(t), current, overflow, commands);
      }
      InsertOk(current, e, round);
      InsertOk(overflow, e, round);
      if nextExpiryTime <= timeNow {
        if D.Minus(timeNow, commandTime, round) >= PeriodOf(t) {
          processTimerNow := true;
        } else {
          overflow := InsertSorted(overflow, e);
        }
      } else {
        if timeNow < commandTime && nextExpiryTime >= commandTime {
          processTimerNow := true;
        } else {
          current := InsertSorted(current, e);
        }
      }
    }

    /** The same once the callback of t, which is still to run, has run. */
    ghost predicate InPlaceAfter(t: Timer)
      reads this`current, this`overflow, this`commands, this`period, this`base, this`now, this`due, this`punctual
    {
      punctual ==> Located(x, start, if t == x then due + PeriodOf(x) else due, PeriodOf(x), round, base, now,
                           See(x, current, overflow, commands))
    }

    /** A timer's callback. */
    method RunCallback(t: Timer)
      requires Exact()
      modifies this`callbacks, this`due, this`fired
      ensures Exact() && callbacks == old(callbacks) + [t]
      ensures due == old(due) + if t == x then PeriodOf(x) else 0
      ensures old(InPlaceAfter(t)) ==> InPlace(false)
      ensures old(InPlace(true)) && (t == x ==> old(due) <= now) ==> InPlace(true)
    {
      if punctual { CallbackCounted(x, start, PeriodOf(x), due, fired, callbacks, t); }
      callbacks := callbacks + [t];
      if t == x {
        due, fired := due + PeriodOf(x), fired + 1;
      }
    }

    /** uxListRemove on the head of the current list. */
    method TakeHead(ghost held: bool) returns (t: Timer, value: nat)
      requires ListsValid() && InPlace(held) && current != []
      modifies this`current
      ensures ListsValid() && t == old(current)[0].owner && value == old(current)[0].value && value < round
      ensures current == old(current)[1..]
      ensures Room(old(current), round) == round - value + Room(current, round)
      ensures InPlace(held || t == x)
      ensures punctual && t == x ==> !held && due == base + value
    {
      t, value := current[0].owner, current[0].value;
      PopOk(current, overflow, round);
      if punctual && !held {
        HeadIsDue(x, start, due, PeriodOf(x), round, base, now, current, overflow, commands);
      }
      current := current[1..];
    }

    /** An insertion, and the command to a timer that is to be processed now. */
    method InsertOrCommand(t: Timer, next: nat, timeNow: nat, commandTime: nat, back: Command, ghost v: Verdict)
      requires ListsOk(current, overflow, round) && CommandsOk(commands + [back], round)
      requires next < round && timeNow < round && commandTime < round
      requires v == Decide(next, timeNow, commandTime, PeriodOf(t), round)
      modifies this`current, this`overflow, this`commands
      ensures ListsOk(current, overflow, round) && CommandsOk(commands, round)
      ensures Lists(current, overflow, commands) ==
              Placed(v, Entry(next, t), back, Lists(old(current), old(overflow), old(commands)))
    {
      assert CommandsOk(commands, round) by {
        assert forall i :: 0 <= i < |commands| ==> (commands + [back])[i] == commands[i];
      }
      var again := InsertTimerInActiveList(t, next, timeNow, commandTime);
      if again {
        commands := commands + [back];
      }
    }

    /** An auto-reload timer that has expired goes back for its next expiry. */
    method Reload(t: Timer, value: nat, timeNow: nat)
      requires Valid() && InPlace(t == x) && value <= timeNow == lastTime
      requires punctual && t == x ==> due == base + value
      modifies this`current, this`overflow, this`commands
      ensures Valid()
      ensures InPlaceAfter(t)
      ensures var next := D.Plus(value, PeriodOf(t), round);
              var v := Decide(next, timeNow, value, PeriodOf(t), round);
              All() == Placed(v, Entry(next, t), Start(t, value), old(All()))
    {
      ghost var l := Lists(current, overflow, commands);
      var next := D.Plus(value, PeriodOf(t), round);
      ghost var v, p := Decide(next, timeNow, value, PeriodOf(t), round), PeriodOf(x);
      ghost var s := NOWHERE;
      if punctual {
        s := Reloaded(t, x, start, due, p, round, base, now, timeNow, value, PeriodOf(t), next, v, l);
      }
      InsertOrCommand(t, next, timeNow, value, Start(t, value), v);
      ghost var placed := Lists(current, overflow, commands);
      assert PeriodOf(x) == p && (punctual ==> See(x, current, overflow, commands) == SeeIn(x, placed) == s);
    }

    /** prvProcessExpiredTimer. */
    method ProcessExpiredTimer(nextExpireTime: nat, timeNow: nat)
      requires Valid() && InPlace(false) && Exact() && x in autoReload
      requires current != [] && nextExpireTime == current[0].value <= timeNow == lastTime
      modifies this`current, this`overflow, this`commands, this`callbacks, this`due, this`fired
      ensures Valid() && InPlace(false) && Exact()
      ensures callbacks == old(callbacks) + [old(current)[0].owner]
      ensures HeadExpired(old(All()), timeNow)
    {
      var t, value := TakeHead(false);
      ExpireTaken(t, nextExpireTime, timeNow);
    }

    method ExpireTaken(t: Timer, value: nat, timeNow: nat)
      requires Valid() && InPlace(t == x) && Exact() && x in autoReload && value <= timeNow == lastTime
      requires punctual && t == x ==> due == base + value
      modifies this`current, this`overflow, this`commands, this`callbacks, this`due, this`fired
      ensures Valid() && InPlace(false) && Exact() && callbacks == old(callbacks) + [t]
      ensures var next := D.Plus(value, PeriodOf(t), round);
              var v := Decide(next, timeNow, value, PeriodOf(t), round);
              All() == if t in autoReload then Placed(v, Entry(next, t), Start(t, value), old(All())) else old(All())
    {
      if t in autoReload {
        Reload(t, value, timeNow);
      }
      RunCallback(t);
    }

    /** The reload of a timer that expired before the wrap. */
    method ReloadBeforeSwitch(t: Timer, value: nat, ghost held: bool)
      requires ListsValid() && InPlace(held || t == x) && value < round && (punctual ==> base % round == 0)
      requires punctual && t == x ==> !held && due == base + value + PeriodOf(x) && base + value <= now
      modifies this`current, this`commands
      ensures ListsValid() && InPlace(held)
      ensures Room(current, round) < Room(old(current), round) + round - value
      ensures WorkedOff(t, value, D.Plus(value, PeriodOf(t), round), true, old(All()), All())
    {
      var reload := D.Plus(value, PeriodOf(t), round);
      RoomInsert(current, Entry(reload, t), round);
      InsertOk(current, Entry(reload, t), round);
      if punctual {
        if t == x {
          ReloadedBeforeSwitch(x, start, base + value, PeriodOf(x), round, base, now, value,
                               current, overflow, commands);
        } else {
          OthersUnseen(x, Entry(reload, t), Start(t, value), current, overflow, commands);
        }
      }
      if reload > value {
        current := InsertSorted(current, Entry(reload, t));
      } else {
        commands := commands + [Start(t, value)];
      }
    }

    /** One turn of the loop of prvSwitchTimerLists. */
    method WorkOffHead(ghost held: bool)
      requires ListsValid() && InPlace(held) && Exact() && x in autoReload && current != []
      requires punctual ==> base % round == 0 && base + round <= now
      modifies this`current, this`commands, this`callbacks, this`due, this`fired
      ensures ListsValid() && InPlace(held) && Exact()
      ensures punctual && held ==> due == old(due)
      ensures Room(current, round) < Room(old(current), round)
      ensures AllServed(autoReload, old(All()), old(callbacks), All(), callbacks)
    {
      ghost var l, ran := All(), callbacks;
      var t, value := TakeHead(held);
      RunBeforeSwitch(t, value, held);
      HeadServed(autoReload, t, value, D.Plus(value, PeriodOf(t), round), l, ran, All());
    }

    method RunBeforeSwitch(t: Timer, value: nat, ghost held: bool)
      requires ListsValid() && InPlace(held || t == x) && Exact() && x in autoReload && value < round
      requires punctual ==> base % round == 0 && base + round <= now
      requires punctual && t == x ==> !held && due == base + value
      modifies this`current, this`commands, this`callbacks, this`due, this`fired
      ensures ListsValid() && InPlace(held) && Exact()
      ensures punctual && held ==> due == old(due)
      ensures Room(current, round) < Room(old(current), round) + round - value
      ensures callbacks == old(callbacks) + [t]
      ensures WorkedOff(t, value, D.Plus(value, PeriodOf(t), round), t in autoReload, old(All()), All())
    {
      RunCallback(t);
      if t in autoReload {
        ReloadBeforeSwitch(t, value, held);
      }
    }

    /** prvSwitchTimerLists.  It ends, since each turn brings the item values of
        the list closer to the end of the round; the old list is then empty. */
    method SwitchTimerLists(ghost held: bool)
      requires ListsValid() && InPlace(held) && Exact() && x in autoReload
      requires punctual ==> base % round == 0 && base + round <= now
      modifies this`current, this`overflow, this`commands, this`callbacks, this`due, this`fired, this`base
      ensures ListsValid() && InPlace(held) && Exact() && base == old(base) + round
      ensures punctual && held ==> due == old(due)
      ensures current == old(overflow) && overflow == []
      ensures Sampled(true, autoReload, old(All()), old(callbacks), All(), callbacks)
    {
      ghost var l, ran := All(), callbacks;
      WorkOffAll(held);
      SwappedAfter(autoReload, l, ran, All(), callbacks);
      SwapLists(held);
    }

    method WorkOffAll(ghost held: bool)
      requires ListsValid() && InPlace(held) && Exact() && x in autoReload
      requires punctual ==> base % round == 0 && base + round <= now
      modifies this`current, this`commands, this`callbacks, this`due, this`fired
      ensures ListsValid() && InPlace(held) && Exact() && current == []
      ensures punctual && held ==> due == old(due)
      ensures AllServed(autoReload, old(All()), old(callbacks), All(), callbacks)
    {
      ghost var l, ran := All(), callbacks;
      while current != []
        invariant ListsValid() && InPlace(held) && Exact()
        invariant punctual && held ==> due == old(due)
        invariant AllServed(autoReload, l, ran, All(), callbacks)
        decreases Room(current, round)
      {
        ghost var l', ran' := All(), callbacks;
        WorkOffHead(held);
        ServedOn(autoReload, l, ran, l', ran', All(), callbacks);
      }
    }

    method SwapLists(ghost held: bool)
      requires ListsValid() && InPlace(held) && current == []
      modifies this`current, this`overflow, this`base
      ensures ListsValid() && InPlace(held) && base == old(base) + round
      ensures current == old(overflow) && overflow == []
    {
      if punctual {
        KeptBySwap(held, x, start, due, PeriodOf(x), round, base, now, overflow, commands);
      }
      current, overflow := overflow, current;
      base := base + round;
    }

    /** Time has passed, and the counter shows tick. */
    ghost method TimePasses(tick: nat, at: nat, held: bool)
      requires Valid() && InPlace(held) && Exact() && now <= at && tick == at % round
      modifies this`now, this`punctual
      ensures ListsValid() && InPlace(held) && Exact() && now == at
      ensures punctual == (old(punctual) && at < old(now) + round)
      ensures punctual ==> RoundAt(if tick < lastTime then base + round else base, at, tick, round)
      ensures punctual ==> base % round == 0 && (tick < lastTime ==> base + round <= at)
    {
      if at >= now + round {
        punctual := false;
      }
      if punctual {
        LaterInRound(held, x, start, due, PeriodOf(x), round, base, now, lastTime, at,
                     See(x, current, overflow, commands));
      }
      now := at;
    }

    /** prvSampleTimeNow, at true time at, when the counter shows tick. */
    method SampleTimeNow(tick: nat, ghost at: nat, ghost held: bool) returns (switched: bool)
      requires Valid() && InPlace(held) && Exact() && x in autoReload
      requires now <= at && tick == at % round
      modifies this`current, this`overflow, this`commands, this`callbacks, this`due, this`fired, this`base,
               this`lastTime, this`now, this`punctual
      ensures Valid() && InPlace(held) && Exact() && now == at && lastTime == tick
      ensures punctual == (old(punctual) && at < old(now) + round)
      ensures punctual && held ==> due == old(due)
      ensures switched <==> tick < old(lastTime)
      ensures base == old(base) + if switched then round else 0
      ensures switched ==> current == old(overflow) && overflow == []
      ensures Sampled(switched, autoReload, old(All()), old(callbacks), All(), callbacks)
    {
      TimePasses(tick, at, held);
      switched := SwitchIfWrapped(tick, held);
    }

    method SwitchIfWrapped(tick: nat, ghost held: bool) returns (switched: bool)
      requires ListsValid() && InPlace(held) && Exact() && x in autoReload && tick < round
      requires punctual ==> RoundAt(if tick < lastTime then base + round else base, now, tick, round)
      requires punctual ==> base % round == 0 && (tick < lastTime ==> base + round <= now)
      modifies this`current, this`overflow, this`commands, this`callbacks, this`due, this`fired, this`base,
               this`lastTime
      ensures Valid() && InPlace(held) && Exact() && lastTime == tick
      ensures punctual && held ==> due == old(due)
      ensures switched <==> tick < old(lastTime)
      ensures base == old(base) + if switched then round else 0
      ensures switched ==> current == old(overflow) && overflow == []
      ensures Sampled(switched, autoReload, old(All()), old(callbacks), All(), callbacks)
    {
      NotSampled(autoReload, All(), callbacks);
      if tick < lastTime {
        SwitchTimerLists(held);
        switched := true;
      } else {
        switched := false;
      }
      lastTime := tick;
    }

    /** The last command of the timer followed is the first one, or was not sent
        before its time. */
    ghost predicate Sent()
      reads this`period, this`due, this`now
    {
      PeriodOf(x) <= due && (due <= now + PeriodOf(x) || due == start + PeriodOf(x))
    }

    /** xQueueReceive, and uxListRemove if the timer is on a list. */
    method TakeCommand() returns (m: Command)
      requires Valid() && InPlace(false) && commands != []
      modifies this`current, this`overflow, this`commands
      ensures Valid() && m == old(commands)[0] && CommandOk(m, round)
      ensures All() == Taken(old(All()))
      ensures InPlace(m.timer == x)
      ensures punctual && m.timer == x ==> m == Start(x, (due - PeriodOf(x)) % round) && Sent()
    {
      m := commands[0];
      if punctual {
        CommandInHand(x, start, due, PeriodOf(x), round, base, now, current, overflow, commands);
      }
      WithoutOk(current, overflow, m.timer, round);
      CommandsSplit(commands, round);
      commands := commands[1..];
      current := Without(current, m.timer);
      overflow := Without(overflow, m.timer);
    }

    /** A start command of the followed timer was given one period before it is
        due, and not in the future. */
    ghost predicate StartsAt(t: Timer, value: nat)
      reads this`period, this`due, this`now, this`punctual
    {
      punctual && t == x ==> round > 0 && due - PeriodOf(x) <= now && value == (due - PeriodOf(x)) % round
    }

    /** The command in hand, if it is one of the followed timer. */
    ghost predicate InHand(m: Command)
      reads this`period, this`due, this`now, this`punctual
    {
      punctual && m.timer == x ==> m.Start? && StartsAt(x, m.value)
    }

    ghost predicate Right(t: Timer)
      reads this`period, this`due, this`now
    {
      round > 0 && (t == x ==> JudgedRightly(due - PeriodOf(x), now, PeriodOf(x), round))
    }

    /** What the test makes of the command. */
    ghost method JudgeAge(t: Timer)
      requires Valid() && InPlace(t == x) && Exact()
      modifies this`punctual
      ensures Valid() && InPlace(t == x) && Exact() && punctual == (old(punctual) && Right(t))
    {
      if !Right(t) {
        punctual := false;
      }
    }

    /** The start and reset commands. */
    method StartTimer(t: Timer, value: nat, timeNow: nat, ghost q: nat)
      requires Valid() && InPlace(t == x) && Exact() && x in autoReload && timeNow == lastTime && value < round
      requires q == PeriodOf(t) && StartsAt(t, value)
      modifies this`current, this`overflow, this`commands, this`callbacks, this`due, this`fired, this`punctual
      ensures Valid() && InPlace(false) && Exact()
      ensures punctual == (old(punctual) && old(Right(t)))
      ensures Effect(Start(t, value), timeNow, q, t in autoReload, round, old(All()), old(callbacks), All(), callbacks)
    {
      JudgeAge(t);
      StartJudged(t, value, timeNow, q);
    }

    method StartJudged(t: Timer, value: nat, timeNow: nat, ghost q: nat)
      requires Valid() && InPlace(t == x) && Exact() && x in autoReload && timeNow == lastTime && value < round
      requires q == PeriodOf(t) && StartsAt(t, value) && (punctual ==> Right(t))
      modifies this`current, this`overflow, this`commands, this`callbacks, this`due, this`fired
      ensures Valid() && InPlace(false) && Exact()
      ensures Effect(Start(t, value), timeNow, q, t in autoReload, round, old(All()), old(callbacks), All(), callbacks)
    {
      var again := InsertStart(t, value, timeNow);
      if again {
        StartAgain(t, D.Plus(value, PeriodOf(t), round));
      }
    }

    method InsertStart(t: Timer, value: nat, timeNow: nat) returns (again: bool)
      requires Valid() && InPlace(t == x) && timeNow == lastTime && value < round
      requires StartsAt(t, value) && (punctual ==> Right(t))
      modifies this`current, this`overflow
      ensures Valid()
      ensures again ==> InPlace(t == x)
      ensures again && punctual && t == x ==> due <= now && D.Plus(value, PeriodOf(t), round) == due % round
      ensures !again ==> InPlace(false)
      ensures var next := D.Plus(value, PeriodOf(t), round);
              var v := Decide(next, timeNow, value, PeriodOf(t), round);
              && (again <==> v == ProcessNow)
              && Inserted(v, Entry(next, t), old(current), old(overflow), current, overflow)
    {
      var next := D.Plus(value, PeriodOf(t), round);
      ghost var l, v := Lists(current, overflow, commands), Decide(next, timeNow, value, PeriodOf(t), round);
      if punctual {
        if t == x {
          StartedInPlace(x, start, due, PeriodOf(x), round, base, now, lastTime, value, l);
          PlusShows(due - PeriodOf(x), PeriodOf(x), round);
        }
      }
      again := InsertTimerInActiveList(t, next, timeNow, value);
    }

    /** The timer expired before its command was processed. */
    method StartAgain(t: Timer, next: nat)
      requires Valid() && InPlace(t == x) && Exact() && x in autoReload && next < round
      requires punctual && t == x ==> due <= now && next == due % round
      modifies this`commands, this`callbacks, this`due, this`fired
      ensures Valid() && InPlace(false) && Exact() && callbacks == old(callbacks) + [t]
      ensures commands == old(commands) + if t in autoReload then [Start(t, next)] else []
    {
      ghost var expired := due;
      assert commands + [] == commands;
      RunCallback(t);
      if t in autoReload {
        SendStart(t, next, expired);
      }
    }

    /** The command with which an auto-reload timer goes on. */
    method SendStart(t: Timer, next: nat, ghost expired: nat)
      requires Valid() && InPlace(t == x) && next < round
      requires punctual && t == x ==> expired <= now && due == expired + PeriodOf(x) && next == expired % round
      modifies this`commands
      ensures Valid() && InPlace(false) && commands == old(commands) + [Start(t, next)]
    {
      StartUnseen(x, Start(t, next), current, overflow, commands);
      if punctual && t == x {
        StartSent(x, start, expired, PeriodOf(x), round, base, now, current, overflow, commands);
      }
      commands := commands + [Start(t, next)];
    }

    /** The change-period command: the timer is never to be processed at once. */
    method ChangeTimerPeriod(t: Timer, value: nat, timeNow: nat)
      requires Valid() && InPlace(t == x) && Exact() && (punctual ==> t != x)
      requires timeNow == lastTime && 0 < value < round
      modifies this`current, this`overflow, this`period
      ensures Valid() && InPlace(false) && Exact() && period == old(period)[t := value]
      ensures RunsFromNow(t, value, timeNow, round, old(All()), old(callbacks), All(), callbacks)
    {
      PeriodsWith(period, t, value, round);
      ghost var p := PeriodOf(x);
      period := period[t := value];
      assert t != x ==> PeriodOf(x) == p;
      InsertFromNow(t, value, timeNow);
    }

    method InsertFromNow(t: Timer, value: nat, timeNow: nat)
      requires Valid() && InPlace(false) && (punctual ==> t != x)
      requires timeNow == lastTime && 0 < value < round && PeriodOf(t) == value
      modifies this`current, this`overflow
      ensures Valid() && InPlace(false)
      ensures RunsFromNow(t, value, timeNow, round, old(All()), old(callbacks), All(), callbacks)
    {
      var next := D.Plus(timeNow, value, round);
      ghost var v, before, late := Decide(next, timeNow, timeNow, value, round), current, overflow;
      FromNow(timeNow, value, round);
      var again := InsertTimerInActiveList(t, next, timeNow, timeNow);
      assert Inserted(v, Entry(next, t), before, late, current, overflow);
    }

    /** The switch on the command. */
    method CarryOut(m: Command, timeNow: nat, ghost q: nat)
      requires Valid() && InPlace(m.timer == x) && Exact() && x in autoReload && timeNow == lastTime
      requires CommandOk(m, round) && q == PeriodOf(m.timer)
      requires InHand(m)
      modifies this`current, this`overflow, this`commands, this`callbacks, this`due, this`fired, this`period,
               this`punctual
      ensures Valid() && InPlace(false) && Exact()
      ensures punctual == (old(punctual) && old(Right(m.timer)))
      ensures Effect(m, timeNow, q, m.timer in autoReload, round, old(All()), old(callbacks), All(), callbacks)
      ensures m.Stop? || m.Delete? ==> unchanged(`current, `overflow, `commands, `callbacks)
      ensures period == if m.ChangePeriod? then old(period)[m.timer := m.value] else old(period)
    {
      match m
      case Start(t, value) => StartTimer(t, value, timeNow, q);
      case Stop(t) =>
      case ChangePeriod(t, value) => ChangeTimerPeriod(t, value, timeNow);
      case Delete(t) =>
    }

    /** One turn of the loop of prvProcessReceivedCommands, at true time at. */
    method ProcessReceivedCommand(tick: nat, ghost at: nat)
      requires Valid() && InPlace(false) && Exact() && x in autoReload && commands != []
      requires now <= at && tick == at % round
      requires commands[0].timer == x ==> start <= at   // the timer has been started by then
      modifies this`current, this`overflow, this`commands, this`callbacks, this`due, this`fired, this`base,
               this`lastTime, this`now, this`period, this`punctual
      ensures Valid() && InPlace(false) && Exact() && now == at
      ensures punctual == (old(punctual) && at < old(now) + round &&
                           (old(commands)[0].timer == x ==>
                              JudgedRightly(old(due) - old(PeriodOf(x)), at, old(PeriodOf(x)), round)))
      ensures var m := old(commands)[0];
              && Obeyed(m, tick, old(PeriodOf(m.timer)), m.timer in autoReload, round,
                        Sight([], [], CommandsFor(old(commands)[1..], m.timer)), multiset(old(callbacks))[m.timer],
                        SeeIn(m.timer, All()), multiset(callbacks)[m.timer])
              && period == (if m.ChangePeriod? then old(period)[m.timer := m.value] else old(period))
      ensures var m := old(commands)[0];
              m.Stop? || m.Delete? ==>
                && TimesOf(current, m.timer) == TimesOf(overflow, m.timer) == []
                && CommandsFor(commands, m.timer) == CommandsFor(old(commands)[1..], m.timer)
                && multiset(callbacks)[m.timer] == multiset(old(callbacks))[m.timer]
      ensures OthersSampled(old(commands)[0].timer, tick < old(lastTime), autoReload,
                            old(All()), old(callbacks), All(), callbacks)
    {
      TakeAndObey(tick, at, commands[0], PeriodOf(commands[0].timer), due - PeriodOf(x), PeriodOf(x), now);
    }

    method TakeAndObey(tick: nat, ghost at: nat, ghost m: Command, ghost q: nat, ghost c: int, ghost p: nat,
                       ghost n: nat)
      requires Valid() && InPlace(false) && Exact() && x in autoReload && commands != []
      requires c == due - PeriodOf(x) && p == PeriodOf(x) && n == now <= at && tick == at % round
      requires m == commands[0] && q == PeriodOf(m.timer)
      requires m.timer == x ==> start <= at
      modifies this`current, this`overflow, this`commands, this`callbacks, this`due, this`fired, this`base,
               this`lastTime, this`now, this`period, this`punctual
      ensures Valid() && InPlace(false) && Exact() && now == at && q < round && CommandOk(m, round)
      ensures punctual == (old(punctual) && at < n + round && (m.timer == x ==> JudgedRightly(c, at, p, round)))
      ensures Obeyed(m, tick, q, m.timer in autoReload, round, Sight([], [], CommandsFor(old(commands)[1..], m.timer)),
                     multiset(old(callbacks))[m.timer], SeeIn(m.timer, All()), multiset(callbacks)[m.timer])
      ensures OthersSampled(m.timer, tick < old(lastTime), autoReload, old(All()), old(callbacks), All(), callbacks)
      ensures period == if m.ChangePeriod? then old(period)[m.timer := m.value] else old(period)
    {
      ghost var l, ran := All(), callbacks;
      ghost var l1, ran1 := TakeAndCarryOut(tick, at, m, q, c, p, n);
      CommandObeyed(l, ran, tick < old(lastTime), autoReload, l1, ran1, tick, q, round, All(), callbacks);
    }

    method TakeAndCarryOut(tick: nat, ghost at: nat, ghost m: Command, ghost q: nat, ghost c: int, ghost p: nat,
                           ghost n: nat)
      returns (ghost l: Lists, ghost ran: seq<Timer>)
      requires Valid() && InPlace(false) && Exact() && x in autoReload && commands != []
      requires c == due - PeriodOf(x) && p == PeriodOf(x) && n == now <= at && tick == at % round
      requires m == commands[0] && q == PeriodOf(m.timer)
      requires m.timer == x ==> start <= at
      modifies this`current, this`overflow, this`commands, this`callbacks, this`due, this`fired, this`base,
               this`lastTime, this`now, this`period, this`punctual
      ensures Valid() && InPlace(false) && Exact() && now == at && q < round && CommandOk(m, round)
      ensures punctual == (old(punctual) && at < n + round && (m.timer == x ==> JudgedRightly(c, at, p, round)))
      ensures Sampled(tick < old(lastTime), autoReload, Taken(old(All())), old(callbacks), l, ran)
      ensures Effect(m, tick, q, m.timer in autoReload, round, l, ran, All(), callbacks)
      ensures period == if m.ChangePeriod? then old(period)[m.timer := m.value] else old(period)
    {
      var command := TakeAndSample(tick, at, c, p, n);
      l, ran := All(), callbacks;
      CarryOut(command, tick, q);
    }

    /** The time is sampled after the command has been taken. */
    method TakeAndSample(tick: nat, ghost at: nat, ghost c: int, ghost p: nat, ghost n: nat) returns (m: Command)
      requires Valid() && InPlace(false) && Exact() && x in autoReload && commands != []
      requires c == due - PeriodOf(x) && p == PeriodOf(x) && n == now <= at && tick == at % round
      requires commands[0].timer == x ==> start <= at
      modifies this`current, this`overflow, this`commands, this`callbacks, this`due, this`fired, this`base,
               this`lastTime, this`now, this`punctual
      ensures Valid() && InPlace(m.timer == x) && Exact() && now == at && lastTime == tick
      ensures m == old(commands)[0] && CommandOk(m, round) && punctual == (old(punctual) && at < n + round)
      ensures InHand(m) && (punctual ==> Right(m.timer) == (m.timer == x ==> JudgedRightly(c, at, p, round)))
      ensures Sampled(tick < old(lastTime), autoReload, Taken(old(All())), old(callbacks), All(), callbacks)
    {
      m := TakeCommand();
      var switched := SampleForCommand(m, tick, at, c, p, n);
    }

    method SampleForCommand(m: Command, tick: nat, ghost at: nat, ghost c: int, ghost p: nat, ghost n: nat)
      returns (switched: bool)
      requires Valid() && InPlace(m.timer == x) && Exact() && x in autoReload && CommandOk(m, round)
      requires c == due - PeriodOf(x) && p == PeriodOf(x) && n == now <= at && tick == at % round
      requires punctual && m.timer == x ==> Sent() && m == Start(x, (due - PeriodOf(x)) % round) && start <= at
      modifies this`current, this`overflow, this`commands, this`callbacks, this`due, this`fired, this`base,
               this`lastTime, this`now, this`punctual
      ensures Valid() && InPlace(m.timer == x) && Exact() && now == at && lastTime == tick
      ensures punctual == (old(punctual) && at < n + round)
      ensures InHand(m) && (punctual ==> Right(m.timer) == (m.timer == x ==> JudgedRightly(c, at, p, round)))
      ensures switched <==> tick < old(lastTime)
      ensures Sampled(switched, autoReload, old(All()), old(callbacks), All(), callbacks)
    {
      switched := SampleTimeNow(tick, at, m.timer == x);
    }

    /** prvGetNextExpireTime. */
    method GetNextExpireTime() returns (nextExpireTime: nat, listWasEmpty: bool)
      ensures listWasEmpty <==> current == []
      ensures nextExpireTime == if current == [] then 0 else current[0].value
    {
      listWasEmpty := current == [];
      if !listWasEmpty {
        nextExpireTime := current[0].value;
      } else {
        nextExpireTime := 0;
      }
    }

    /** The time to block for: up to the head of the current list, or without one
        up to the wrap, or for ever without any timer.  If no command for the
        followed timer waits on the queue, every expiry up to now has had its
        callback, and the sleep is no longer than the timer has left. */
    ghost predicate BlocksFor(ticks: nat, forever: bool, tick: nat)
      reads this`current, this`overflow, this`commands, this`callbacks, this`period, this`due, this`now, this`base,
            this`punctual
    {
      && tick < round && (current == [] || tick < current[0].value < round)
      && ticks == D.Minus(if current == [] then 0 else current[0].value, tick, round)
      && forever == (current == [] && overflow == [])
      && (punctual ==> now + ticks <= base + round)
      && (punctual && CommandsFor(commands, x) == [] ==>
            && now < due && !forever && now + ticks <= due
            && var k := multiset(callbacks)[x];
               Expiry(start, PeriodOf(x), k) <= now < Expiry(start, PeriodOf(x), k + 1))
    }

    method Block(nextExpireTime: nat, listWasEmpty: bool, timeNow: nat) returns (ticks: nat, forever: bool)
      requires Valid() && InPlace(false) && Exact() && timeNow == lastTime
      requires listWasEmpty == (current == []) && nextExpireTime == if current == [] then 0 else current[0].value
      requires listWasEmpty || timeNow < nextExpireTime
      ensures BlocksFor(ticks, forever, timeNow)
    {
      forever := false;
      if listWasEmpty {
        forever := overflow == [];
      }
      ticks := D.Minus(nextExpireTime, timeNow, round);
      if punctual && CommandsFor(commands, x) == [] {
        TimeLeft(x, start, due, PeriodOf(x), round, base, now, lastTime, current, overflow, commands);
      }
    }

    /** prvProcessTimerOrBlockTask, at true time at.  When the daemon blocks, it
        and no command for the followed timer waits on the queue, which would
        wake it, then every expiry up to now has had its callback, and the
        daemon sleeps no longer than the timer has left.  Whatever it does is
        stated for every timer. */
    method ProcessTimerOrBlockTask(tick: nat, ghost at: nat) returns (blocked: bool, ticks: nat, forever: bool)
      requires Valid() && InPlace(false) && Exact() && x in autoReload
      requires now <= at && tick == at % round
      modifies this`current, this`overflow, this`commands, this`callbacks, this`due, this`fired, this`base,
               this`lastTime, this`now, this`punctual
      ensures Valid() && InPlace(false) && Exact() && now == at
      ensures punctual == (old(punctual) && at < old(now) + round)
      ensures blocked <==> tick >= old(lastTime) && (old(current) == [] || tick < old(current)[0].value)
      ensures blocked ==> BlocksFor(ticks, forever, tick) && unchanged(`current, `overflow, `commands, `callbacks)
      ensures !blocked && tick >= old(lastTime) ==>
                && old(current) != [] && callbacks == old(callbacks) + [old(current)[0].owner]
                && HeadExpired(old(All()), tick)
      ensures tick < old(lastTime) ==> Sampled(true, autoReload, old(All()), old(callbacks), All(), callbacks)
    {
      var nextExpireTime, listWasEmpty := GetNextExpireTime();
      var switched := SampleTimeNow(tick, at, false);
      blocked, ticks, forever := false, 0, false;
      if !switched {
        blocked, ticks, forever := ExpireOrBlock(nextExpireTime, listWasEmpty, tick);
      }
    }

    /** The head of the current list taken off and, if it reloads, placed for its
        next expiry. */
    ghost predicate HeadExpired(l: Lists, tick: nat)
      reads this`current, this`overflow, this`commands, this`period, this`autoReload
    {
      && l.current != [] && l.current[0].value < round && tick < round && PeriodOf(l.current[0].owner) < round
      && var t, value := l.current[0].owner, l.current[0].value;
         var rest, next := l.(current := l.current[1..]), D.Plus(value, PeriodOf(t), round);
         All() == if t in autoReload
                  then Placed(Decide(next, tick, value, PeriodOf(t), round), Entry(next, t), Start(t, value), rest)
                  else rest
    }

    method ExpireOrBlock(nextExpireTime: nat, listWasEmpty: bool, tick: nat)
      returns (blocked: bool, ticks: nat, forever: bool)
      requires Valid() && InPlace(false) && Exact() && x in autoReload && tick == lastTime
      requires listWasEmpty == (current == []) && nextExpireTime == if current == [] then 0 else current[0].value
      modifies this`current, this`overflow, this`commands, this`callbacks, this`due, this`fired
      ensures Valid() && InPlace(false) && Exact()
      ensures blocked <==> listWasEmpty || tick < nextExpireTime
      ensures blocked ==> BlocksFor(ticks, forever, tick) && unchanged(`current, `overflow, `commands, `callbacks)
      ensures !blocked ==> HeadExpired(old(All()), tick) && callbacks == old(callbacks) + [old(current)[0].owner]
    {
      blocked, ticks, forever := false, 0, false;
      if !listWasEmpty && nextExpireTime <= tick {
        ProcessExpiredTimer(nextExpireTime, tick);
      } else {
        blocked := true;
        ticks, forever := Block(nextExpireTime, listWasEmpty, tick);
      }
    }

    /** Another timer's command arrives on the queue. */
    method SendCommand(c: Command)
      requires Valid() && InPlace(false) && CommandOk(c, round) && c.timer != x
      modifies this`commands
      ensures Valid() && InPlace(false) && commands == old(commands) + [c]
    {
      CommandsForAppend(commands, c, x);
      commands := commands + [c];
    }
  }

  /** The command of a timer with period 5, given at 0 and processed at 12, the
      counter wrapping at 10: its expiry has passed, but it is not processed. */
  method LateCommandMisjudged() returns (processTimerNow: bool)
    ensures !processTimerNow && 0 + 5 <= 12
  {
    var daemon := new Daemon(10, map[1 := 5], {1}, 1, 0, 0);
    processTimerNow := daemon.InsertTimerInActiveList(1, 5 % 10, 12 % 10, 0 % 10);
  }

  /** A sample at 13 after one at 0: the counter has wrapped at 10, but the lists
      do not change places. */
  method LateSampleMissed() returns (daemon: Daemon, switched: bool)
    ensures !switched && daemon.now == 13 && daemon.base + daemon.round <= daemon.now
  {
    daemon := new Daemon(10, map[1 := 5], {1}, 1, 0, 0);
    switched := daemon.SampleTimeNow(13 % 10, 13, false);
  }
}
