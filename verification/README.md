# Verification of the kernel core

A Dafny model of the parts of the Kendryte K210 SDK on which most else rests:
the FreeRTOS kernel as one core runs it (lists, ticks and time-outs, scheduling,
priority inheritance, queues, stream and message buffers, event groups, software
timers), the uncached heap, the PLL divider search, and the address and number
formatting. `dafny verify dfyconfig.toml` checks everything.

Code that changes state in place is modelled by classes and methods, each tied
by its postconditions to a specification; the promises of the code are lemmas
about those specifications and about whole runs. Time is the recurring theme.
The kernel sees a tick counter that wraps; the specifications use unbounded
time, and the lemmas say exactly when the two agree. The modulus is a parameter,
called `round`.

| file | what it covers |
|---|---|
| `Lists.dfy` | kernel lists: sorted and round-robin meaning, and the pointer rings that implement it |
| `Ticks.dfy` | delayed tasks: two lists that change places on wrap, pended ticks, against a clock with one list of sleepers |
| `Deadlines.dfy` | `vTaskDelayUntil` and `xTaskCheckForTimeOut` across wraps |
| `Scheduler.dfy` | which list each task is on, priority changes, and the choice of the next task |
| `Inheritance.dfy` | mutex priority inheritance over whole runs |
| `InheritanceLimits.dfy` | what inheritance does not cover, exactly |
| `Disinheritance.dfy` | when an inherited priority is given back, and exactly when it is kept too long |
| `QueueProtocol.dfy` | blocking, waking and locked queues as a step system: no wake-up is lost |
| `QueueRing.dfy` | the byte storage of a queue as a bounded deque |
| `StreamBuffer.dfy` | stream and message buffers called by one task at a time |
| `MessageBuffer.dfy` | a message buffer with one writer and one reader interleaved at every byte and index access |
| `EventGroup.dfy` | event groups: release of exactly the satisfied waiters, and the reusable rendezvous |
| `Timers.dfy` | the timer daemon: no period of an auto-reload timer is lost or doubled |
| `IoMem.dfy` | the top-down first-fit allocator |
| `Pll.dfy` | the PLL divider search over the reals |
| `Ip4.dfy` | parsing and printing of dotted addresses |
| `Printf.dfy` | numerals, field layout and bounded output |
| `Arithmetic.dfy`, `Wrappers.dfy` | two facts about products and remainders, and optional values |

Where the code does not do what its callers may expect, the code is modelled as
it is, the exact condition is proved for all inputs, and one input at which it
fails is given:

- the 8-bit lock count of a queue, for any number of waiting tasks and of events:
  `QueueProtocol.SendBurstExactly`, `QueueProtocol.ReceiveBurstExactly`, with
  `QueueProtocol.BurstWakesExactly` for one receiver from the start;
- a receive with too small a buffer beside a writer:
  `MessageBuffer.TooSmallReceiveRaces`, `MessageBuffer.NextReceiveFinds`,
  `MessageBuffer.MessagesLost`;
- overwriting a full queue of items without a size:
  `ByteQueues.SendWithinLength`, `ByteQueues.OverwriteTwice`;
- time-out checks more than a round apart: `Deadlines.CheckIsExact`,
  `Deadlines.LateCheckMisses`;
- a periodic delay whose reference is ahead of the call, because the delay was
  aborted or the task suspended and resumed, or a round or more behind it:
  `Deadlines.DelayUntilIsPeriodic`, `Deadlines.DelayUntilAhead`,
  `Deadlines.AbortedIsNotDelayed`, `Deadlines.LateIsDelayed`;
- timer commands, and samples of the tick count, more than a round old:
  `TimerArithmetic.InsertionTestExact`, `TimerArithmetic.WrapSeenExactly`,
  `TimerDaemon.LateCommandMisjudged`, `TimerDaemon.LateSampleMissed`;
- priority inheritance along a chain of holders, and from tasks that waited
  before the holder took the mutex, in runs with and without nested blocking:
  `InheritanceLimits.BoostedExactly`, `InheritanceLimits.ChainIsNotFollowed`,
  `InheritanceLimits.NestedWaitersExactly`, `InheritanceLimits.WaitersBelowExactly`,
  `InheritanceLimits.EarlierWaitersAreForgotten`;
- an inherited priority that is kept when nobody waits for it any more, because
  another mutex is still held or because a task gives up whose block did not
  count as inheritance: `Disinheritance.LoweredExactly`,
  `Disinheritance.KeptWithSecondMutex`, `Disinheritance.KeptAfterTimeOut`;
- `a2u`, which takes a digit equal to the base: `Printf.NumeralReadBack`,
  `Printf.LetterTaken`;
- the address parser, which computes modulo 2^32 and takes 8 and 9 as octal
  digits: `Ip4Addr.RightValuesExactly`, `Ip4Addr.AgreesWithInetAddr`,
  `Ip4Addr.WrongAddresses`.

Assumptions, all of them restrictions on the environment rather than on inputs:
one core; the generic task selection, preemption and task suspension configured
in; an idle task that never leaves the ready state; no queue sets. In
`QueueProtocol` woken tasks are not suspended or deleted, and a lock count stays
below 128 (`Fits`). In `Inheritance.HolderIsBoosted` the third promise is for
runs in which no task blocks while it holds a mutex; `InheritanceLimits` says
what holds without that. In `Disinheritance` a task is also in one call of
`xQueueSemaphoreTake` at a time (`OneCallAtATime`). In `TimerDaemon` the command
queue has room, and nobody else sends commands for the timer followed;
`punctual` says that no sample of the daemon was a round after the one before,
and that no command of the timer was misjudged, which happens exactly to one
that is a round old or more and seems less than a period old. In `Pll` the
request is positive and not above the highest oscillator frequency: for others
the source divides by zero. In `IoMem` the table has between 1 and 65535
entries.

## Model

| member | source | states |
|---|---|---|
| `PointerList.List.constructor` | lib/freertos/list.c:51-73 | An empty list: the ring is the end marker alone, with the largest item value |
| `PointerList.List.InsertEnd` | lib/freertos/list.c:88-114 | The pointer ring stays well formed (links both ways, count, container, index) and, as a round-robin list, gains the item in front of the index |
| `PointerList.List.FindPlace` | lib/freertos/list.c:128-169 | The search ends because of the end marker, behind every leading item that is not larger |
| `PointerList.List.Insert` | lib/freertos/list.c:117-181 | As a sequence of entries the list becomes the sorted insertion of the item; nothing else changes its value |
| `PointerList.List.Remove` | lib/freertos/list.c:184-210 | As a round-robin list the item is taken out, an index on it moves to its predecessor, the container is cleared and the new length is returned |
| `PointerList.List.GetNextEntry` | lib/freertos/include/list.h:290-301 | Hands out the first item of the visiting order and moves the index past the end marker |
| `ListModel.InsertSortedStable` | lib/freertos/list.c:128-169 | A sorted list stays sorted and the new entry goes behind its equals |
| `ListModel.InsertSortedUnique` | lib/freertos/list.c:128-169 | Only one place qualifies, so a search that finds a place has computed the sorted insertion |
| `ListModel.InsertSortedContents` | lib/freertos/list.c:117-181 | The list gains exactly the new entry |
| `ListModel.NextRotates` | lib/freertos/include/list.h:290-301 | A selection moves the first of the visiting order to its back |
| `ListModel.SelectionsVisitAll` | lib/freertos/include/list.h:290-301 | The first n selections on an unchanged list are the first n of the visiting order; after all of them the order is what it was, so each item is handed out once |
| `ListModel.InsertEndVisitedLast` | lib/freertos/list.c:88-114 | An item inserted at the end is visited after all others, except the one last handed out |
| `ListModel.RemoveKeepsVisitOrder` | lib/freertos/list.c:184-210 | Removal leaves the visiting order of the other items as it was |
| `SleepClock.SleepsExactly` | lib/freertos/tasks.c:2659-2805 | Whatever other tasks do, a task that sleeps for k ticks is asleep until the k-th later tick and is readied once, by that tick |
| `SleepClock.ZeroSleepIsOneTick` | lib/freertos/tasks.c:5031-5141 | A task that goes to sleep for no time is readied by the next tick |
| `SleepCalls.SleepsThroughCalls` | lib/freertos/tasks.c:2092-2270 | Over any run of tick interrupts, suspensions, resumes, sleeps and events of other tasks, and of other tasks made ready at once under suspension: a task that sleeps for n ticks is asleep until the n-th later tick has been processed and is readied once, by that tick; interrupts are all counted, and all processed whenever the scheduler is not suspended |
| `SleepClock.TicksAreRun` | lib/freertos/tasks.c:2226-2250 | Ticks replayed after a suspension are ticks like any others |
| `SleepClock.TicksReadyInOrder` | lib/freertos/tasks.c:2226-2250 | Tick by tick, the tasks readied by replayed ticks are the owners of the sleepers whose time each tick reaches, in order |
| `SleepCalls.WithoutTasksExactly` | lib/freertos/tasks.c:2190-2197 | Taking tasks off a list takes off exactly those |
| `SleepClock.TickMoves` | lib/freertos/tasks.c:2693-2769 | A tick readies exactly the sleepers whose time has come, records its time for them, and leaves the rest in order |
| `Rounds.MergedInsertCurrent` | lib/freertos/tasks.c:5084-5101 | Inserting in the current delayed list inserts at the true wake time among all sleepers |
| `Rounds.MergedInsertNext` | lib/freertos/tasks.c:5078-5083 | Inserting in the overflow delayed list inserts at the true wake time in the next round |
| `TickHandling.CounterIsTime` | lib/freertos/tasks.c:2674-2687 | The tick count is the true time modulo the round, the overflow count is how often it has wrapped |
| `TickHandling.AdvanceToNextRound` | lib/freertos/tasks.c:229-241 | When the counter wraps the current delayed list is empty, and the swap changes no wake time |
| `TickHandling.TickMerged` | lib/freertos/tasks.c:2693-2769 | The unblocking loop takes off exactly the items due, in order, in terms of the true clock |
| `TickHandling.DelayedTasks.constructor` | lib/freertos/tasks.c:3529-3559 | The counters and empty lists represent a clock at time zero |
| `TickHandling.DelayedTasks.AddToDelayedList` | lib/freertos/tasks.c:5031-5141 | The task sleeps for the true number of ticks, across a wrap, none included, or for ever on the suspended list |
| `TickHandling.DelayedTasks.ResetNextUnblockTime` | lib/freertos/tasks.c:3825-3847 | The next unblock time is the head of the delayed list, or the largest tick count |
| `TickHandling.DelayedTasks.SwitchDelayedLists` | lib/freertos/tasks.c:229-241 | The lists change places, the overflow count grows and the unblock time is that of the new list |
| `TickHandling.DelayedTasks.UnblockDue` | lib/freertos/tasks.c:2695-2768 | Exactly the leading items that are due go to the ready lists, in order, and the unblock time is reset |
| `TickHandling.DelayedTasks.IncrementTick` | lib/freertos/tasks.c:2659-2829 | One tick of the true clock, with exactly the tasks it wakes made ready; or, while suspended, one more pended tick |
| `TickHandling.DelayedTasks.TickInterrupt` | lib/freertos/tasks.c:2659-2829 | True time plus pended ticks counts every tick interrupt, and no tick is pended while the scheduler runs |
| `TickHandling.DelayedTasks.SuspendAll` | lib/freertos/tasks.c:2092-2099 | The nesting count grows; nothing else is touched |
| `TickHandling.DelayedTasks.Unblock` | lib/freertos/tasks.c:2194-2197 | The task leaves the delayed lists, both of them, and becomes ready, and no other wake time moves |
| `TickHandling.DelayedTasks.RemoveFromEventList` | lib/freertos/tasks.c:3087-3099 | A task whose event has come is readied, or noted in order while the scheduler is suspended |
| `TickHandling.DelayedTasks.ReadyAtOnce` | lib/freertos/tasks.c:3155-3159 | A task released by an event group, or whose delay is aborted, is ready at once although the scheduler is suspended |
| `TickHandling.DelayedTasks.ResumeAll` | lib/freertos/tasks.c:2167-2270 | At the outermost resume the ready lists get the tasks readied meanwhile, in order, and then those that each pended tick wakes, tick by tick; the clock has caught up, and none of them is left on the suspended list. Below the outermost level nothing is readied |
| `TickHandling.DelayedTasks.ReplayTicks` | lib/freertos/tasks.c:2226-2250 | As many ticks of the true clock as were pended, none is left, and each readies its tasks behind those of the ticks before |
| `Deadlines.MinusIsElapsed` | lib/freertos/tasks.c:3192-3253 | The unsigned difference of two tick counts is the true time between them, in either direction, up to whole rounds |
| `Deadlines.DelayUntil` | lib/freertos/tasks.c:1252-1330 | The three-way comparison of the counts decides whether the distance from the reference is below the increment, and gives the remaining ticks |
| `Deadlines.DelaysExactly` | lib/freertos/tasks.c:1262-1317 | Whatever the reference, the task blocks if and only if less than the increment has passed since the counter last showed the reference; the reference always advances by exactly the increment, and the wake time is wrong by whole rounds at most |
| `Deadlines.DelayUntilIsPeriodic` | lib/freertos/tasks.c:1262-1317 | For every reference and every time of the call: the task blocks just when the true wake time is in the future, and until exactly then, if and only if the reference is not ahead of the call and is less than a round behind it or the increment has passed since the counter last showed it |
| `Deadlines.DelayUntilAfterRound` | lib/freertos/tasks.c:1262-1317 | A later caller blocks, wrongly, if and only if less than the increment has passed since the counter last showed the reference |
| `Deadlines.DelayUntilAhead` | lib/freertos/tasks.c:1262-1317 | With the reference ahead of the call the wake time is in the future, yet the task blocks if and only if the reference is less than the increment short of a round ahead, and then for a round too little |
| `Deadlines.AbortedIsNotDelayed` | lib/freertos/tasks.c:1270-1301 | A task whose delay was aborted calls again and is not delayed |
| `Deadlines.LateIsDelayed` | lib/freertos/tasks.c:1270-1301 | A task that calls more than a round late is delayed |
| `Deadlines.CheckForTimeOut` | lib/freertos/tasks.c:3192-3253 | Every branch of the time-out check: aborted delay, infinite wait that never expires, overflow, remaining time adjusted, and what remains after an expiry |
| `Deadlines.CheckIsExact` | lib/freertos/tasks.c:3203-3248 | For every elapsed time: the answer is right if and only if less than a round has passed, or what is left of the elapsed time without whole rounds reaches the wait, or the counter does not show less than at entry and the overflow counter tells |
| `Deadlines.LateCheckMisses` | lib/freertos/tasks.c:3203-3248 | A wait of 8 found not to be over after 16 ticks |
| `Deadlines.CheckWithinTwoRounds` | lib/freertos/tasks.c:3203-3248 | With at most one overflow since the last check the answer is right and the elapsed time exact |
| `Deadlines.DeadlineConserved` | lib/freertos/tasks.c:3170-3253 | Over any number of checks entry time plus remaining time is conserved, and the wait expires at the first check at which the original wait is over |
| `Scheduler.RemoveFits` | lib/freertos/list.c:184-210 | Taking a task off its list keeps: one list per state item, lengths that add up, ready lists by priority, the top ready priority a bound |
| `Scheduler.AddFits` | lib/freertos/tasks.c:249-253 | Putting a task on a list keeps the same, with the top ready priority raised if needed |
| `Scheduler.SelectFits` | lib/freertos/tasks.c:154-179 | A selection keeps the same, with the top ready priority lowered to the list found |
| `Scheduler.SelectedIsHighest` | lib/freertos/tasks.c:154-179 | A task found on the first non-empty list from the top has the highest priority of all that are ready |
| `Scheduler.PutOnAppears` | lib/freertos/tasks.c:249-253 | A task put on a list: on a ready list it is visited behind all others, the one under the index apart; on a delayed list it is in order behind its equals; all other lists stay as they were |
| `Scheduler.TakenLeavesOut` | lib/freertos/list.c:184-210 | A task taken off its list: every list is what it was without the task, in unchanged order |
| `Scheduler.Kernel.constructor` | lib/freertos/tasks.c:3529-3559 | Empty lists for every priority |
| `Scheduler.Kernel.AddTaskToReadyList` | lib/freertos/tasks.c:249-253 | The task is on the ready list of its current priority, visited behind all that were there, the one under the index apart; all other lists are as they were, and the top ready priority still bounds all |
| `Scheduler.Kernel.AddNewTask` | lib/freertos/tasks.c:1057-1139 | The new task is ready, visited behind its equals, and counted; it becomes current before the scheduler runs if none of higher priority is; when a yield is asked for |
| `Scheduler.Kernel.MakeReady` | lib/freertos/tasks.c:3087-3093 | A task leaves whatever list its state item is on for the ready list of its priority, where it is visited behind all others, the one under the index apart; the others keep their order in every list |
| `Scheduler.Kernel.DelayCurrent` | lib/freertos/tasks.c:5031-5141 | The current task leaves its ready list for the delayed or suspended list asked for, in order behind its equals or at the end; no other task moves or changes places |
| `Scheduler.Kernel.Suspend` | lib/freertos/tasks.c:1684-1779 | The task is at the end of the suspended list and on no other, the others in order; the current task is cleared before the scheduler runs only if all tasks are suspended |
| `Scheduler.Kernel.Resume` | lib/freertos/tasks.c:1786-1880 | Exactly a task in the Suspended state, not the current one and not waiting for an event, becomes ready, behind its equals; otherwise no list changes |
| `Scheduler.Kernel.Delete` | lib/freertos/tasks.c:1159-1228 | A task that deletes itself stays counted at the end of the termination list; any other leaves the lists and the count; the others keep their order |
| `Scheduler.Kernel.CleanUp` | lib/freertos/tasks.c:3562-3588 | Afterwards no deleted task is on the termination list or counted, and no other list has changed |
| `Scheduler.Kernel.PrioritySet` | lib/freertos/tasks.c:1519-1677 | The base priority is the new one; the priority in use follows just when none is inherited, and no other task has a new priority; a ready task whose base changes goes behind its equals on the list of its priority in use; when a yield is asked for |
| `Scheduler.Kernel.PriorityInherit` | lib/freertos/tasks.c:3898-3978 | The holder runs at the higher of its own and the current priority and, if it was ready and raised, is on that ready list; the result is true just when its priority was raised or its base is below the current priority |
| `Scheduler.Kernel.PriorityDisinherit` | lib/freertos/tasks.c:3986-4059 | The mutex count falls and with the last mutex the base priority and its ready list are restored; a yield is asked for just when the priority changed |
| `Scheduler.Kernel.PriorityDisinheritAfterTimeout` | lib/freertos/tasks.c:4067-4163 | A holder of one mutex drops to its base priority or to that of the highest waiter, and to the matching ready list |
| `Scheduler.Kernel.SelectHighestPriorityTask` | lib/freertos/tasks.c:154-179 | The search ends before the priority could pass zero and picks, of the highest ready priority, the first in the visiting order of its list |
| `Scheduler.Kernel.SwitchContext` | lib/freertos/tasks.c:2925-2986 | Nothing before the scheduler runs, a pending yield while it is suspended, otherwise a task of maximal ready priority |
| `Inheritance.StepKeepsSettled` | lib/freertos/tasks.c:3898-4163 | No take, block, give or time-out loses count of the mutexes held or leaves a task without one at an inherited priority |
| `Inheritance.TakeKeeps` | lib/freertos/queue.c:1434-1455 | A free mutex taken: every other holder stays boosted |
| `Inheritance.BlockKeeps` | lib/freertos/queue.c:1526-1547 | The holder inherits, so that it runs at no lower priority than the task that now waits |
| `Inheritance.GiveKeeps` | lib/freertos/tasks.c:3986-4059 | A holder that drops to its base priority holds nothing that anybody waits for |
| `Inheritance.DropKeeps` | lib/freertos/tasks.c:4067-4163 | After a waiter timed out, dropping to the highest remaining waiter keeps the holder of one mutex boosted |
| `Inheritance.GiveUpKeeps` | lib/freertos/queue.c:1578-1600 | The time-out path of a mutex take keeps every holder boosted |
| `Inheritance.HolderIsBoosted` | lib/freertos/queue.c:1395-1611 | After every run: the mutex counts are exact, a task without a mutex runs at its base priority, and, if nobody blocked holding a mutex, each holder runs at least at the priority of every task that blocked in its tenure and still waits |
| `InheritanceLimits.StepBoostedExactly` | lib/freertos/queue.c:1395-1611 | Tasks may hold mutexes while they block: a step keeps every holder boosted if and only if it raises no holder above the holder of what that one waits for, nor lowers one below its waiters |
| `InheritanceLimits.BoostedExactly` | lib/freertos/queue.c:1395-1611 | In every run, however nested, all holders are boosted throughout if and only if every step meets that condition |
| `InheritanceLimits.ChainIsNotFollowed` | lib/freertos/tasks.c:3898-3978 | A run in which it fails: inheritance is not passed on along a chain of holders |
| `InheritanceLimits.StepPassable` | lib/freertos/queue.c:1395-1611 | Tasks may hold mutexes while they block: a step keeps all waiters, whenever they began to wait, at or below the holder if and only if it takes no mutex past a higher waiter, raises no holder above the holder of what that one waits for, and moves a holder on a time-out only between its waiters and those |
| `InheritanceLimits.NestedWaitersExactly` | lib/freertos/queue.c:1395-1611 | In every run, however nested, nobody ever waits above a holder if and only if every step meets that condition |
| `InheritanceLimits.TakeAboveExactly` | lib/freertos/queue.c:1434-1455 | When a free mutex is taken, all that still wait for it are at or below the taker if and only if the first of the event list is |
| `InheritanceLimits.WaitersBelowExactly` | lib/freertos/queue.c:1395-1611 | In every run without nested blocking nobody ever waits above a holder, whenever the wait began, if and only if no mutex is taken past a waiter of higher priority |
| `InheritanceLimits.EarlierWaitersAreForgotten` | lib/freertos/queue.c:1434-1455 | A run in which it fails: a low task takes the mutex ahead of a woken waiter |
| `InheritanceLimits.ItemValuesShowPriorities` | lib/freertos/tasks.c:3910-3922 | In every run, however nested, the item value of each waiter shows the priority it has now, though a waiter whose priority changes keeps its place |
| `Disinheritance.OccurredExactly` | lib/freertos/tasks.c:3898-3978 | The result of inheriting is true if and only if the holder's base priority is below that of the task that blocks, whether or not the holder was raised now |
| `Disinheritance.BlockRemembers` | lib/freertos/queue.c:1526-1547 | A block remembers just that |
| `Disinheritance.TimeOutLowers` | lib/freertos/queue.c:1578-1600 | When a task whose block found the base below its own priority gives up, a holder of one mutex runs at the higher of its base and the waiters that are left, and at one of these |
| `Disinheritance.StepSettlesExactly` | lib/freertos/queue.c:1395-1611 | A step keeps every holder of one mutex at or below the higher of its base and the tasks trying to take the mutex, if and only if a give that leaves one mutex leaves no priority owed for the other, and a time-out that does not lower leaves none owed to that task alone |
| `Disinheritance.BackAtBase` | lib/freertos/tasks.c:3986-4163 | In such a state a holder of one mutex that nobody tries to take is at its base priority |
| `Disinheritance.LoweredExactly` | lib/freertos/queue.c:1395-1611 | In every run without nested blocking no holder of one mutex ever runs above the higher of its base and the tasks trying to take the mutex, if and only if every give and time-out meets that condition |
| `Disinheritance.KeptWithSecondMutex` | lib/freertos/tasks.c:4003-4010 | A run in which it fails: the mutex that was waited for is given back and the priority stays, since another one is held |
| `Disinheritance.KeptAfterTimeOut` | lib/freertos/queue.c:1583-1600 | A run in which it fails: a task gives up without lowering the holder, although the holder has the priority from it alone |
| `TimerArithmetic.DecideByDistance` | lib/freertos/timers.c:667-706 | The insertion test sees how long ago the command was, up to whole rounds, and nothing else |
| `TimerArithmetic.InsertionTestExact` | lib/freertos/timers.c:667-706 | It says "process now" exactly when the expiry has passed, if and only if the command is less than a round old or seems at least a period old |
| `TimerArithmetic.InsertionListExact` | lib/freertos/timers.c:667-706 | For a command less than a round old it picks the current list exactly for expiries in the round of now, the other list exactly for the next round |
| `TimerArithmetic.WrapSeenExactly` | lib/freertos/timers.c:644-664 | Taking the counter to have wrapped once if it shows less than before, and not at all otherwise, is right if and only if the two samples are less than a round apart |
| `TimerArithmetic.WrapSeen` | lib/freertos/timers.c:644-664 | Of two samples less than a round apart the later is smaller exactly when the counter has wrapped, once |
| `TimerDaemon.HeadIsDue` | lib/freertos/timers.c:479-488 | The head of the current list that belongs to a timer is its true next expiry |
| `TimerDaemon.Relocated` | lib/freertos/timers.c:667-706 | A timer inserted for an expiry one period after a time is found where that expiry says, or is sent a command |
| `TimerDaemon.ReloadedBeforeSwitch` | lib/freertos/timers.c:883-904 | An auto-reload timer worked off before the swap goes back for exactly its next expiry, by list or by command |
| `TimerDaemon.RoomInsert` | lib/freertos/timers.c:869-909 | The measure that shows the list switch ends: inserting adds the distance of the value from the end of the round |
| `TimerDaemon.StartedInPlace` | lib/freertos/timers.c:771-799 | A start command that is judged rightly, less than a round old or seeming at least a period old, inserts the timer for its true expiry, or has it processed and sent the next command |
| `TimerDaemon.TimeLeft` | lib/freertos/timers.c:556-614 | When the head is not due a timer expires no earlier than the head, or than the wrap if there is none |
| `TimerDaemon.NoPeriodLost` | lib/freertos/timers.c:479-517 | Caught up, the callback has run exactly once for each start + k periods up to now, and the next expiry is the first in the future |
| `TimerDaemon.CommandObeyed` | lib/freertos/timers.c:709-854 | A command taken off the queue, the time sampled and the command carried out: its own timer sees the command alone, every other timer the sample alone |
| `TimerDaemon.Daemon.constructor` | lib/freertos/timers.c:917-966 | Empty lists, and the start command of the timer followed |
| `TimerDaemon.Daemon.InsertTimerInActiveList` | lib/freertos/timers.c:667-706 | The nested tests put the timer on the list, sorted, that the verdict names, or report that it is to be processed now |
| `TimerDaemon.Daemon.RunCallback` | lib/freertos/timers.c:515-516 | One callback more, for one expiry more, and nothing else |
| `TimerDaemon.Daemon.ProcessExpiredTimer` | lib/freertos/timers.c:479-517 | The head has its callback once; if it reloads it is placed, by list or by command, for the expiry one period later, and a one-shot timer is on no list; no other timer is touched |
| `TimerDaemon.Daemon.SwitchTimerLists` | lib/freertos/timers.c:857-914 | The loop ends, every expiry left over from the old round has had its callback, and the lists have changed places; for every timer each item of the old list has had a callback, and one that does not reload has no other callback and no command |
| `TimerDaemon.Daemon.SampleTimeNow` | lib/freertos/timers.c:644-664 | A wrap is noticed by a smaller count and switches the lists, with the effect of that on every timer, and nothing changes otherwise; the timer followed loses and doubles nothing, unless the sample is a round late |
| `TimerDaemon.Daemon.StartTimer` | lib/freertos/timers.c:771-799 | The timer is on the list that the verdict names, at its expiry, or its callback has run and, if it reloads, the next command is sent; a command is carried out for its own time, however late it is processed, if and only if it is less than a round old or seems at least a period old |
| `TimerDaemon.Daemon.ChangeTimerPeriod` | lib/freertos/timers.c:807-819 | The new period runs from now: the timer is on the list for now plus the period and nowhere else, and is never processed at once |
| `TimerDaemon.Daemon.ProcessReceivedCommand` | lib/freertos/timers.c:709-854 | One message, for every timer: a stopped or deleted timer is on neither list, with no callback and no command added; a started one is on the list that the verdict names or has had its callback; one with a new period runs from now; all others see the sample alone. The timer followed loses and doubles no callback, unless the sample is a round late or the command is a round old and seems less than a period old |
| `TimerDaemon.Daemon.GetNextExpireTime` | lib/freertos/timers.c:617-641 | The item value of the head, or zero for an empty list |
| `TimerDaemon.Daemon.ProcessTimerOrBlockTask` | lib/freertos/timers.c:556-614 | It blocks just when no wrap is seen and the head is not due, and changes nothing then; every expiry up to now has then had its callback, and it sleeps no longer than the timer has left and never for ever. Otherwise the head has its callback, or the lists are switched |
| `TimerDaemon.Daemon.SendCommand` | lib/freertos/timers.c:396-436 | A command for another timer joins the queue at the back, and the timer followed stays where it is |
| `TimerDaemon.LateCommandMisjudged` | lib/freertos/timers.c:667-706 | A command more than a round old whose expiry has passed is not processed |
| `TimerDaemon.LateSampleMissed` | lib/freertos/timers.c:644-664 | A sample more than a round after the last misses the wrap |
| `QueueProtocol.WakeAccounted` | lib/freertos/queue.c:1296-1306 | Waking one waiter covers one more message or slot |
| `QueueProtocol.PostAccounted` | lib/freertos/queue.c:985-1072 | An event from an interrupt is covered by a wake-up or by the lock count |
| `QueueProtocol.RetryAccounted` | lib/freertos/queue.c:1286-1313 | A woken task that tries again covers what it takes |
| `QueueProtocol.InsertAccounted` | lib/freertos/queue.c:1344-1356 | A task may enter the event list because it has seen nothing since the queue was locked |
| `QueueProtocol.ExpireAccounted` | lib/freertos/tasks.c:2732-2747 | A time-out takes no cover away from the others |
| `QueueProtocol.WakeManyAccounted` | lib/freertos/queue.c:2151-2268 | Replaying the lock count wakes a task for each event counted |
| `QueueProtocol.StepKeepsInvariant` | lib/freertos/queue.c:739-2268 | Every critical section, interrupt, tick and half of the unlock keeps all supply accounted for |
| `QueueProtocol.NoLostWakeup` | lib/freertos/queue.c:1253-1392 | After any interleaving, with the queue unlocked, a task waits for a message only if the messages are no more than the receivers woken and not yet back; the same for room and senders |
| `QueueProtocol.SettledQueue` | lib/freertos/queue.c:1253-1392 | When every woken task has tried again, tasks wait to receive only on an empty queue and to send only on a full one; a queue of items with a size never holds more than its length |
| `QueueProtocol.MessagesConserved` | lib/freertos/queue.c:2054-2148 | Over any run a queue holds what was put in and not taken out; only an overwrite of an item with a size puts none in |
| `QueueProtocol.WaitersExactly` | lib/freertos/queue.c:1296-1392 | A task is waiting or woken from when it goes on the event list until it tries again or a tick ends its wait: none is forgotten, and none is woken that did not wait |
| `QueueProtocol.WakeManyFirst` | lib/freertos/queue.c:2151-2268 | Waking n tasks wakes the first n of the event list, or all, and leaves the others in order |
| `QueueProtocol.SendBurstExactly` | lib/freertos/queue.c:1067-1072 | What the width of the lock count costs: with any tasks waiting on an empty locked queue, n messages from interrupts leave no wake-up lost after the unlock if and only if nobody waits, n is at most 127, or n is at least 255 more than wait |
| `QueueProtocol.ReceiveBurstExactly` | lib/freertos/queue.c:1833-1838 | The same for tasks that wait on a full queue, and n receives from interrupts |
| `QueueProtocol.BurstWakesExactly` | lib/freertos/queue.c:1067-1072 | The instance of one receiver that blocked on a new queue: it is woken if and only if 1 <= n <= 127 or n >= 256 |
| `QueueProtocol.RoomWakesExactly` | lib/freertos/queue.c:1833-1838 | The same for one sender that blocked on a full queue |
| `QueueProtocol.QueueControl.TryReceive` | lib/freertos/queue.c:1280-1324 | The critical section of a receive: one message less and the first sender woken just when there is a message, and it is the step of the protocol |
| `QueueProtocol.QueueControl.TryPeek` | lib/freertos/queue.c:1642-1692 | The critical section of a peek: no message less, and the next receiver woken just when there is a message |
| `QueueProtocol.QueueControl.TrySend` | lib/freertos/queue.c:760-869 | The critical section of a send: accepted just when there is room or for an overwrite, one message more unless one with a size is replaced, the first receiver woken; and it is the step of the protocol |
| `QueueProtocol.QueueControl.SendFromISR` | lib/freertos/queue.c:937-1085 | A send from an interrupt: the same, except that while the queue is locked it is counted and nobody woken |
| `QueueProtocol.QueueControl.ReceiveFromISR` | lib/freertos/queue.c:1764-1852 | A receive from an interrupt: one message less, and the first sender woken, or the receive counted while the queue is locked |
| `QueueProtocol.QueueControl.Lock` | lib/freertos/queue.c:246-258 | Locking sets the counts that were not set and leaves the others |
| `QueueProtocol.QueueControl.UnlockSent` | lib/freertos/queue.c:2151-2237 | The first loop of the unlock wakes as many receivers, first ones first, as sends were counted, or all, and ends unlocked |
| `QueueProtocol.QueueControl.UnlockReceived` | lib/freertos/queue.c:2239-2268 | The second loop wakes as many senders as receives were counted, or all, and ends unlocked |
| `QueueStorage.HoldsBack` | lib/freertos/queue.c:2080-2092 | Copying to the write position appends an item and disturbs no other slot |
| `QueueStorage.HoldsFront` | lib/freertos/queue.c:2093-2104 | Copying to the read position prepends an item and disturbs no other slot |
| `QueueStorage.HoldsRest` | lib/freertos/queue.c:2133-2148 | Moving the read position on drops the first item |
| `ByteQueues.SlotOn` | lib/freertos/queue.c:2082-2091 | Moving a position on by one item, with the test against the end, reaches the next slot |
| `ByteQueues.SlotBack` | lib/freertos/queue.c:2095-2104 | Moving a position back by one item, with the test against the start, reaches the slot before |
| `ByteQueues.ByteQueue.constructor` | lib/freertos/queue.c:261-274 | The positions of an empty queue |
| `ByteQueues.ByteQueue.CopyDataToQueue` | lib/freertos/queue.c:2054-2130 | Send-to-back appends, send-to-front prepends, overwrite replaces, for every length and item size |
| `ByteQueues.ByteQueue.CopyDataFromQueue` | lib/freertos/queue.c:2133-2148 | The bytes copied out are the first item |
| `ByteQueues.ByteQueue.Send` | lib/freertos/queue.c:739-869 | Accepted exactly when there is room or an overwrite is asked for; the item is then last, first or the only one, as the position says |
| `ByteQueues.ByteQueue.Receive` | lib/freertos/queue.c:1280-1324 | The first item, which leaves the queue, or nothing from an empty one |
| `ByteQueues.ByteQueue.Peek` | lib/freertos/queue.c:1642-1692 | The first item, and nothing changes |
| `ByteQueues.SendWithinLength` | lib/freertos/queue.c:2054-2130 | A send keeps the queue within its length if and only if items have a size or it does not overwrite a full queue |
| `ByteQueues.OverwriteTwice` | lib/freertos/queue.c:2054-2130 | Overwriting a full queue of length one, of items without a size, makes it hold two |
| `RingArithmetic.SpacesPlusBytes` | lib/freertos/stream_buffer.c:465-486 | Bytes held and bytes free always make the length less one |
| `RingArithmetic.BytesIsDistance` | lib/freertos/stream_buffer.c:1135-1152 | The byte count from the two indices is the true distance of the positions |
| `Framing.DecodeEncode` | lib/freertos/stream_buffer.c:676-684 | A length prefix is read back as written |
| `Framing.FrameInFront` | lib/freertos/stream_buffer.c:776-798 | More than a length prefix beyond a frame boundary means the whole frame is there |
| `StreamBuffers.OverwriteAppends` | lib/freertos/stream_buffer.c:1034-1077 | Writing behind what is held appends to it |
| `StreamBuffers.StreamBuffer.WriteBytes` | lib/freertos/stream_buffer.c:1034-1077 | The bytes are appended, in one piece or two |
| `StreamBuffers.StreamBuffer.ReadBytes` | lib/freertos/stream_buffer.c:1080-1132 | The first bytes held are handed out and removed |
| `StreamBuffers.StreamBuffer.WriteMessage` | lib/freertos/stream_buffer.c:653-702 | A message goes in whole with its length, or not at all; a stream takes what fits |
| `StreamBuffers.StreamBuffer.ReadMessage` | lib/freertos/stream_buffer.c:866-914 | The oldest message whole; one that is too long for the caller leaves the buffer as it was |
| `StreamBuffers.StreamBuffer.Send` | lib/freertos/stream_buffer.c:501-599 | The messages held gain the one sent exactly when it fits with its prefix |
| `StreamBuffers.StreamBuffer.Receive` | lib/freertos/stream_buffer.c:705-806 | The oldest message, or nothing and an unchanged buffer |
| `MessageBuffer.WholeMessageVisible` | lib/freertos/stream_buffer.c:676-699 | Although the head is published twice per message, a reader never sees part of one |
| `MessageBuffer.WriterStepKeepsInvariant` | lib/freertos/stream_buffer.c:1034-1077 | Sampling, copying each byte and publishing the head keep the cells carrying the stream |
| `MessageBuffer.ReaderStepKeepsInvariant` | lib/freertos/stream_buffer.c:1080-1132 | Sampling, copying each byte and publishing the tail keep the reader at a frame boundary |
| `MessageBuffer.MessagesArriveWhole` | lib/freertos/stream_buffer.c:653-914 | However writer and reader are interleaved, the messages received are those sent, whole, in order and without gaps |
| `MessageBuffer.AdmitsExactly` | lib/freertos/stream_buffer.c:653-702 | A message is admitted if and only if it fits with its length beside all that was admitted and not yet read, one byte staying free; otherwise nothing changes |
| `MessageBuffer.FindsExactly` | lib/freertos/stream_buffer.c:776-798 | A receive finds a message if and only if the oldest unread one has been published whole; otherwise nothing changes |
| `MessageBuffer.ReceiveDelivers` | lib/freertos/stream_buffer.c:776-914 | A receive with room for that message goes through to its end and hands it over |
| `MessageBuffer.TooSmallReceiveRaces` | lib/freertos/stream_buffer.c:874-901 | A receive with too small a buffer moves the tail on and back: whatever the writer does in between, the buffer is as it should be, so that all messages arrive whole from then on, if and only if all that was admitted fits in front of the restored tail; a receive right after, with no message half written, finds something in that same case only |
| `MessageBuffer.NextReceiveFinds` | lib/freertos/stream_buffer.c:776-798 | The same wherever in a message the writer is when the tail is put back: once it has finished that message, the next receive finds what is there to be read if and only if everything admitted fits in front of the tail |
| `MessageBuffer.MessagesLost` | lib/freertos/stream_buffer.c:866-914 | A run in which the messages received are no prefix of those sent |
| `ItemValues.WaitValueDecodes` | lib/freertos/event_groups.c:65-75 | In the 32-bit item value of a waiter the event bits and the control bits stay apart |
| `ItemValues.ReleaseValueDecodes` | lib/freertos/event_groups.c:588-593 | The item value of a released task shows the bits and the mark |
| `EventGroups.LeftExactly` | lib/freertos/event_groups.c:544-600 | Exactly the waiters whose condition the bits do not satisfy stay |
| `EventGroups.ReleasedExactly` | lib/freertos/event_groups.c:544-600 | Exactly the satisfied waiters are released, each with bits that satisfy its own condition |
| `EventGroups.ToClearExactly` | lib/freertos/event_groups.c:576-604 | The bits cleared are those that released clear-on-exit waiters waited for |
| `EventGroups.SetKeepsValid` | lib/freertos/event_groups.c:518-609 | After setting bits nobody is blocked whose condition is met |
| `EventGroups.SyncKeepsValid` | lib/freertos/event_groups.c:190-247 | A rendezvous call blocks only on a condition that is not met |
| `EventGroups.NobodyBlockedInVain` | lib/freertos/event_groups.c:190-609 | In no state that a run of set, clear, wait, sync, time-out and resume reaches is a task blocked whose condition the bits satisfy |
| `EventGroups.EventGroup.MatchFound` | lib/freertos/event_groups.c:547-574 | The test in the loop: some of the bits waited for, or all of them if all were asked for |
| `EventGroups.EventGroup.ReleaseMatching` | lib/freertos/event_groups.c:544-600 | The loop releases exactly the satisfied waiters and keeps the others in order |
| `EventGroups.EventGroup.SetBits` | lib/freertos/event_groups.c:518-609 | A bit is set afterwards if and only if it was or is set now, and no waiter that it helps to release asked to clear it; waiters and released tasks as specified |
| `EventGroups.EventGroup.ClearBits` | lib/freertos/event_groups.c:460-484 | The bits before, and the bits left |
| `EventGroups.EventGroup.WaitForBits` | lib/freertos/event_groups.c:310-395 | Returns at once, with the bits as they were, if and only if the condition is met or no wait is asked for; the bits lose those waited for if and only if the condition is met and clearing asked for; the list of waiters grows by this one if and only if it blocks |
| `EventGroups.EventGroup.SyncBits` | lib/freertos/event_groups.c:190-247 | Returns at once if and only if all bits waited for are there or no wait is asked for; then all bits are returned and those waited for cleared, else the bits are left as the setting left them; blocks as one more waiter otherwise |
| `EventGroups.EventGroup.Resume` | lib/freertos/event_groups.c:398-451 | A released task returns the bits that released it and clears nothing; one that timed out returns the bits as they are and clears those waited for if and only if the condition is met by now and clearing was asked for |
| `EventGroups.RendezvousRound` | lib/freertos/event_groups.c:190-307 | Until the last task arrives nobody returns; that arrival releases all with the full set and leaves no bits and nobody waiting |
| `EventGroups.RendezvousReusable` | lib/freertos/event_groups.c:190-307 | Round after round, in any order of arrival and with released tasks running at any time, also in later rounds: only the last call of a round returns at once, every released call returns all bits, none is lost or doubled, and the group is as new |
| `IoMem.ScanSees` | lib/bsp/iomem.c:103-113 | At an index between allocations a zero entry is a free block and any other is the last block of an allocation and shows its length |
| `IoMem.ScanFree` | lib/bsp/iomem.c:105-108 | One more free block makes the run long enough, or no run starts there |
| `IoMem.ScanTail` | lib/bsp/iomem.c:109-113 | Jumping over an allocation misses no free run |
| `IoMem.MallocKeepsValid` | lib/bsp/iomem.c:114-119 | The two tags of a new allocation keep allocations disjoint, in range and tagged |
| `IoMem.FreeKeepsValid` | lib/bsp/iomem.c:134-138 | Clearing both tags keeps the same for the others |
| `IoMem.FreeUndoesMalloc` | lib/bsp/iomem.c:114-138 | Freeing what was just allocated restores the table |
| `IoMem.BlocksSuffice` | lib/bsp/iomem.c:99-101 | The number of blocks is the size in blocks, rounded up |
| `IoMem.LineAfterFree` | lib/bsp/iomem.c:140-143 | The heap line moved up past a freed block is still not above any allocation |
| `IoMem.Heap.constructor` | lib/bsp/iomem.c:62-78 | A table of zeros, and the line at the top |
| `IoMem.Heap.FindRun` | lib/bsp/iomem.c:103-121 | The downward scan finds the highest free run of the length wanted, or there is none |
| `IoMem.Heap.KMalloc` | lib/bsp/iomem.c:89-122 | The highest free run of ceil(size / 256) blocks, with both tags set; failure exactly when there is none or the size is zero |
| `IoMem.Heap.KFree` | lib/bsp/iomem.c:124-148 | The allocation is gone, its two tags cleared, and the line adjusted; an offset outside is refused |
| `IoMem.Heap.Malloc` | lib/bsp/iomem.c:178-207 | As the scan says, and the heap line stays at or below every allocation |
| `PllArithmetic.SameRatio` | lib/hal/sysctl.c:1127-1151 | Dividers in the ratio of a candidate have the output of the candidate |
| `PllArithmetic.ErrorOfOutput` | lib/hal/sysctl.c:1099-1102 | The error the search computes is the relative error of the output |
| `Pll.LargestDivisor` | lib/hal/sysctl.c:1107-1115 | The loop ends at the largest divisor within the limit |
| `Pll.RescaleUp` | lib/hal/sysctl.c:1127-1139 | The branch that raises NF and OD keeps the ratio |
| `Pll.RescaleThrough` | lib/hal/sysctl.c:1140-1151 | The branch that moves a divisor from NR to OD keeps the ratio |
| `Pll.Rescale` | lib/hal/sysctl.c:1106-1151 | Either way the ratio is kept and every divider is positive |
| `Pll.Check` | lib/hal/sysctl.c:1153-1183 | What passes the range tests fits the hardware: NR, NF, OD and BW in range, oscillator and reference frequency too |
| `Pll.Candidate` | lib/hal/sysctl.c:1088-1186 | A candidate that is taken fits the hardware, with its true error, and has no larger NR than the best so far |
| `Pll.Search` | lib/hal/sysctl.c:1075-1202 | What the search returns fits the hardware and is within the error bound; it returns something only if some candidate is usable, and fails only if none is or an error is so near the bound that the slack of the comparison decides |
| `Pll.WithinOneStep` | lib/hal/sysctl.c:1197-1202 | Within the bound the output is less than one part in 64 off |
| `Pll.PllUnit.SetFreq` | lib/hal/sysctl.c:989-1257 | Zero and untouched registers, or register fields in range, the oscillator in range, the output within 1/64 of the request, and its floor returned; the second if some candidate is usable and no error is near the bound, the first if none is usable |
| `Ip4Addr.AcceptsForms` | lib/posix/ip4_addr.cpp:97-208 | One to four numbers modulo 2^32, each decimal, octal with any digits, or hexadecimal, up to the end or a space, are accepted exactly when all but the last are bytes and the last fits; five or more are refused |
| `Ip4Addr.AcceptedHasForm` | lib/posix/ip4_addr.cpp:97-208 | Nothing else is accepted, and the address is the one the numbers make modulo 2^32 |
| `Ip4Addr.RightValuesExactly` | lib/posix/ip4_addr.cpp:126-203 | The address is the one the true numbers make if and only if the numbers modulo 2^32 make none or all numbers are below 2^32 |
| `Ip4Addr.AgreesWithInetAddr` | lib/posix/ip4_addr.cpp:97-208 | It agrees with `inet_addr()` if and only if the numbers modulo 2^32 make no address, or all numbers are below 2^32 and constants of C: octal digits below 8, and digits behind 0x |
| `Ip4Addr.WrongAddresses` | lib/posix/ip4_addr.cpp:97-208 | 0x100000001 is accepted as 0.0.0.1, and 09 as 0.0.0.9 |
| `Ip4Addr.RoundTrip` | lib/posix/ip4_addr.cpp:234-271 | The text of every address is read back as that address |
| `Ip4Addr.DigitStep` | lib/posix/ip4_addr.cpp:126-136 | The 32-bit accumulation computes the number modulo 2^32 |
| `Ip4Addr.ReadNumber` | lib/posix/ip4_addr.cpp:112-136 | The loop reads the longest run of digits of the base its prefix names |
| `Ip4Addr.ParseAddress` | lib/posix/ip4_addr.cpp:97-208 | The parser computes the specified address or refuses |
| `Ip4Addr.MakeAddress` | lib/posix/ip4_addr.cpp:163-203 | The switch on the number of parts |
| `Ip4Addr.CombineMeans` | lib/posix/ip4_addr.cpp:163-203 | What it makes: all parts but the last are the leading bytes of the address and the last is the rest, with the limits on each, for one to four parts |
| `Ip4Addr.Digits` | lib/posix/ip4_addr.cpp:251-256 | The digit loop yields the decimal numeral, last digit first |
| `Ip4Addr.PutByte` | lib/posix/ip4_addr.cpp:251-266 | One numeral and a dot, or failure exactly when they do not fit |
| `Ip4Addr.FormatAddress` | lib/posix/ip4_addr.cpp:234-271 | Succeeds exactly when text and NUL fit, so 16 bytes always do; nothing is written at or behind buflen |
| `Printf.Divisor` | lib/bsp/printf.c:122-125 | The largest power of the base not above the number, reached without passing it, so it never overflows |
| `Printf.UnsignedToA` | lib/bsp/printf.c:116-134 | The digits are the canonical numeral of the number, letters in the case asked for; a zero with precision zero has none |
| `Printf.NumeralFits` | lib/bsp/printf.c:116-134 | A numeral has at most k digits exactly when the number is below the k-th power of the base |
| `Printf.BufferSuffices` | lib/bsp/printf.c:89-95 | Every numeral formatted, 64 bits in base 10 and 16 and an unsigned int in base 8, fits the 20 characters of the buffer |
| `Printf.A2u` | lib/bsp/printf.c:221-236 | The longest run of characters taken in, and its value in 32 bits |
| `Printf.NumeralReadBack` | lib/bsp/printf.c:221-236 | A decimal numeral is read back exactly when no digit and no letter a follows |
| `Printf.LetterTaken` | lib/bsp/printf.c:221-236 | 12 followed by a letter a is read as 130 |
| `Printf.Putchw` | lib/bsp/printf.c:238-299 | Without zero filling: sign, prefix, zeros and digits in one piece, first if left aligned and last if not, and spaces else. With zero filling: sign and prefix first, digits last, and zeros between |
| `Printf.LayoutWidth` | lib/bsp/printf.c:238-299 | The field is as wide as asked for, or as what it shows if that is wider: sign, prefix of two, one or no characters, and at least as many digits as the precision, zeros in front |
| `Printf.LayoutPlaces` | lib/bsp/printf.c:238-299 | Where the parts of a field are, for each alignment and filling |
| `Printf.AlternateForm` | lib/bsp/printf.c:269-279 | The prefix of the alternate form makes a numeral a constant of C of its base, which reads back as the number |
| `Printf.BoundedSink.PutChar` | lib/bsp/printf.c:561-567 | Characters beyond the capacity are counted but not stored |
| `Printf.Vsnprintf` | lib/bsp/printf.c:569-587 | The longest prefix that fits, a NUL, and the full length |
| `Printf.Vsprintf` | lib/bsp/printf.c:606-620 | The whole text and a NUL |

## Left out

- Cross-core calls, inter-processor interrupts and the locks of `atomic.h`: critical sections are atomic and the per-core arrays are one core's slice.
- Tickless idle, run-time statistics, task listing, trace hooks, stack checks, MPU variants, context-switch assembly, `croutine.c`, and the thin wrappers around the kernel.
- Queue sets, the queue registry, `xQueueGenericReset` on a queue in use, and deletion of queues, buffers and event groups.
- TickHandling.DelayedTasks.IncrementTick: does not return the yield decision, and the order within a ready list is that of `Scheduler`; event list items of tasks that time out are in `QueueProtocol`.
- TickHandling.DelayedTasks.UnblockDue: the event list item of a task that times out leaves its list in `QueueProtocol`, and yields are decided in `Scheduler`.
- TickHandling.DelayedTasks.Unblock: the event list item, as for `UnblockDue`.
- TickHandling.DelayedTasks.RemoveFromEventList: the event list item, and the yield that is asked for.
- TickHandling.DelayedTasks.ReadyAtOnce: the event list item with its new value, the aborted flag, and the yield that becomes pending.
- TickHandling.DelayedTasks.ResumeAll: the yield that may be pending, and the flag returned for it.
- TickHandling.DelayedTasks.AddToDelayedList: a block time of zero at the last count of a round, which the kernel's own assertion on the swap forbids and nobody asks for.
- TickHandling.CounterIsTime: the overflow count is unbounded here; its wrap is in `Deadlines`, where it matters.
- Scheduler.Kernel.DelayCurrent: takes the list and the item value as given; `TickHandling` says which they are.
- Scheduler.Kernel.PriorityInherit: event list item values are in `Inheritance`, not in the scheduler, and event lists and the pending-ready list are not part of `Scheduler`.
- Scheduler.Kernel.MakeReady: the pending-ready list of a suspended scheduler is in `TickHandling`.
- Scheduler.Kernel.Suspend: removal from an event list and the next unblock time are in `QueueProtocol` and `TickHandling`; the same goes for `Delete`.
- Scheduler.Kernel.Delete: as for `Suspend`.
- Scheduler.Kernel.Resume: the yield decision.
- Scheduler.Kernel.PrioritySet: the event list item value.
- Scheduler.Kernel.PriorityDisinherit: the event list item value, which is in `Inheritance`.
- Scheduler.Kernel.PriorityDisinheritAfterTimeout: the event list item value, which is in `Inheritance`.
- QueueProtocol.QueueControl.TryReceive: the place on an event list is arbitrary in the step system, which covers every order of priorities; the yield decisions are left out.
- Disinheritance.LoweredExactly: for runs in which no task blocks while it holds a mutex, and holders of one mutex.
- Inheritance.HolderIsBoosted: `vTaskPrioritySet` is not a step of the runs, because it can raise a base priority above an inherited one without raising the priority in use.
- TimerDaemon.Daemon.ProcessReceivedCommand: one turn of the loop over the messages; callbacks send no commands of their own within a turn, pended function calls are left out, and a queue with room replaces the assertion on the result of sending.
- TimerDaemon.Daemon.RunCallback: what the callback itself does. That no period is lost over time is stated for the timer followed, which is any one; for the others each step is.
- EventGroups.EventGroup.SetBits: bits are sets of bit numbers and item values are records; `ItemValues` relates them to 32-bit words. The bits returned are those at the end of the loop, where the source reads them after other tasks may have run. The calls from interrupts, which go through the timer daemon, and the blocking of the task itself are left out.
- MessageBuffer.MessagesArriveWhole: for non-empty messages and receive buffers that are large enough; the other case is `TooSmallReceiveRaces`. Memory ordering between cores is left out.
- StreamBuffers.StreamBuffer.Send: without a block time; trigger levels and the task notifications are left out.
- StreamBuffers.StreamBuffer.Receive: the same.
- ByteQueues.ByteQueue.CopyDataToQueue: the mutex branch, which hands priorities back, is in `Inheritance`.
- ByteQueues.ByteQueue.Send: blocking and waking are in `QueueProtocol`.
- IoMem.Heap.KFree: for offsets of live allocations, which is what the callers promise; `iomem_init` and the warning about the cached heap are left out.
- Pll.PllUnit.SetFreq: reals in place of doubles, unbounded integers in place of int, one PLL whose source is fixed; a candidate whose error is within a ten-thousandth of the bound may or may not be taken, as the slack in the comparison of errors decides. Register access, reset and the divider fields of other clocks are left out.
- Ip4Addr.ParseAddress: the address is the number before the conversion to network byte order.
- Printf.Vsnprintf: takes the text that the format writes; the format interpreter with its variable arguments is left out, and so are the signed wrappers of the number functions.
