/**
 The older revision of the retry scheduler. A failed first run registers a
 retry that calls the supplier every 300 seconds, with no attempt counter,
 until the supplier returns true or the retry's time is up.

 The source decides that time is up by comparing hours of the day alone, so a
 retry begun late in the evening never runs out. `AsWritten` follows the source
 and `Corrected` measures the three hours on the clock itself.
 Time is whole seconds of local time; hour `h` of a day is `HourOf`.
 */
module LegacyScheduledUtil {
  import opened Wrappers
  import opened SupplierOutcome
  import opened ScheduledConstants
  import TaskRegistry

  /**
   What the retry closure captures: its task id, the time the first run failed,
   and the delay its `ScheduledTask` carries.
   */
  datatype LegacyRetry = LegacyRetry(taskId: string, start: int, delay: int)

  /** `FUTURE_MAP`: the registered retries. */
  datatype LegacyScheduler = LegacyScheduler(futures: map<string, LegacyRetry>)

  datatype Revision = AsWritten | Corrected

  const SecondsPerDay: int := 86400
  const SecondsPerHour: int := 3600

  /** `LocalDateTime.getHour()`: the hour of the day, 0 to 23. */
  function HourOf(t: int): (h: int)
    ensures 0 <= h < 24
    ensures (t - h * SecondsPerHour) % SecondsPerDay < SecondsPerHour
  {
    (t % SecondsPerDay) / SecondsPerHour
  }

  /**
   `addTask(new ScheduledTask(runnable, taskId, delay))`: an id that already has
   a retry keeps it, and nothing is scheduled. Otherwise the retry is scheduled
   every `delay` seconds and registered, unless a delay that is not positive
   makes scheduling throw.
   */
  function AddTask(s: LegacyScheduler, task: LegacyRetry): (r: Result<LegacyScheduler, Exception>)
    ensures task.taskId in s.futures ==> r == Success(s)
    ensures task.taskId !in s.futures && task.delay <= 0 ==> r == Failure(IllegalArgumentException)
    ensures task.taskId !in s.futures && task.delay > 0
        ==> r == Success(LegacyScheduler(s.futures[task.taskId := task]))
  {
    if task.taskId in s.futures then Success(s)
    else if task.delay <= 0 then Failure(IllegalArgumentException)
    else Success(LegacyScheduler(TaskRegistry.AddTask(s.futures, task.taskId, task)))
  }

  /** `remove(taskId)`: deletes that id's retry, if it has one. */
  function Remove(s: LegacyScheduler, id: string): (r: LegacyScheduler)
    ensures r.futures == TaskRegistry.Remove(s.futures, id)
  {
    LegacyScheduler(TaskRegistry.Remove(s.futures, id))
  }

  /**
   The consumer `cff`: the first run of the supplier for `id` ended with
   `outcome` at time `now`. A false result registers a retry that started at
   `now` and repeats every `DAY_SCHEDULE_INTERVAL` seconds; a true result or an
   exception registers nothing. An exception from `addTask` is caught and
   logged the same way.
   */
  function Accept(s: LegacyScheduler, id: string, outcome: Outcome, now: int): (r: LegacyScheduler)
    ensures outcome != ReturnedFalse || id in s.futures ==> r == s
    ensures outcome == ReturnedFalse && id !in s.futures
        ==> r.futures == s.futures[id := LegacyRetry(id, now, DayScheduleInterval)]
  {
    if outcome == ReturnedFalse then
      match AddTask(s, LegacyRetry(id, now, DayScheduleInterval))
        case Success(t) => t
        case Failure(_) => s
    else s
  }

  /**
   Whether a retry begun at `start` has run out of time at `now`. As written,
   the hour of the day at `now` minus the one at `start` must reach three;
   corrected, three hours must have passed.
   */
  predicate TimedOut(rev: Revision, start: int, now: int) {
    match rev
      case AsWritten => HourOf(now) - HourOf(start) >= DayScheduleDurationHour
      case Corrected => now - start >= DayScheduleDurationSeconds
  }

  /** The state after a retry tick, and whether the supplier was called. */
  datatype Tick = Tick(state: LegacyScheduler, supplierCalled: bool)

  /**
   The retry closure for `id`, ticking at `now`, where `result` is what the
   supplier returns. Every tick calls the supplier; the retry is removed exactly
   when it returned true or the time is up. An id with no registered retry has
   no timer, so its tick changes nothing.
   */
  function Run(rev: Revision, s: LegacyScheduler, id: string, now: int, result: bool): (r: Tick)
    ensures r.state.futures - {id} == s.futures - {id}
    ensures id !in s.futures ==> r == Tick(s, false)
    ensures id in s.futures ==> r.supplierCalled
    ensures id in s.futures ==> (id !in r.state.futures <==> result || TimedOut(rev, s.futures[id].start, now))
    ensures id in r.state.futures ==> r.state.futures[id] == s.futures[id]
  {
    if id !in s.futures then Tick(s, false)
    else if result || TimedOut(rev, s.futures[id].start, now) then Tick(Remove(s, id), true)
    else Tick(s, true)
  }

  /** One timer tick: its time and what the supplier returns. */
  datatype TickEvent = TickEvent(now: int, result: bool)

  /** A run of ticks for one id, giving the final state. */
  function RunAll(rev: Revision, s: LegacyScheduler, id: string, events: seq<TickEvent>): LegacyScheduler
    decreases |events|
  {
    if events == [] then s
    else RunAll(rev, Run(rev, s, id, events[0].now, events[0].result).state, id, events[1..])
  }

  /** The supplier keeps failing on every tick of `events`. */
  predicate AlwaysFails(events: seq<TickEvent>) {
    forall k :: 0 <= k < |events| ==> !events[k].result
  }

  /**
   As written, a retry begun at hour 21 or later is never out of time: no hour
   of the day is three more than its own.
   */
  lemma NeverTimesOutAsWritten(start: int, now: int)
    requires HourOf(start) >= 24 - DayScheduleDurationHour
    ensures !TimedOut(AsWritten, start, now)
  {
  }

  /**
   So such a retry, while its supplier keeps failing, stays registered through
   any number of ticks at any times: it retries every 300 seconds for good.
   */
  lemma {:induction false} NeverStopsAsWritten(s: LegacyScheduler, id: string, events: seq<TickEvent>)
    requires id in s.futures && HourOf(s.futures[id].start) >= 24 - DayScheduleDurationHour
    requires AlwaysFails(events)
    ensures id in RunAll(AsWritten, s, id, events).futures
    ensures RunAll(AsWritten, s, id, events).futures[id] == s.futures[id]
    decreases |events|
  {
    if events != [] {
      NeverTimesOutAsWritten(s.futures[id].start, events[0].now);
      var t := Run(AsWritten, s, id, events[0].now, events[0].result);
      assert AlwaysFails(events[1..]) by {
        forall k | 0 <= k < |events[1..]|
          ensures !events[1..][k].result
        {
          assert events[1..][k] == events[k + 1];
        }
      }
      NeverStopsAsWritten(t.state, id, events[1..]);
    }
  }

  /**
   The case that shows it: a retry begun at 22:00 and ticking at 01:00 the next
   day, three hours later, is not out of time, because 1 - 22 is negative.
   */
  lemma MidnightAsWritten()
    ensures HourOf(22 * SecondsPerHour) == 22 && HourOf(25 * SecondsPerHour) == 1
    ensures 25 * SecondsPerHour - 22 * SecondsPerHour == DayScheduleDurationSeconds
    ensures !TimedOut(AsWritten, 22 * SecondsPerHour, 25 * SecondsPerHour)
    ensures TimedOut(Corrected, 22 * SecondsPerHour, 25 * SecondsPerHour)
  {
  }

  /** Within one day, on whole hours, the two revisions agree. */
  lemma SameDayAgrees(day: int, startHour: int, nowHour: int)
    requires 0 <= startHour <= nowHour < 24
    ensures var start := day * SecondsPerDay + startHour * SecondsPerHour;
            var now := day * SecondsPerDay + nowHour * SecondsPerHour;
            TimedOut(AsWritten, start, now) <==> TimedOut(Corrected, start, now)
  {
    var start := day * SecondsPerDay + startHour * SecondsPerHour;
    var now := day * SecondsPerDay + nowHour * SecondsPerHour;
    HourOfDay(day, startHour);
    HourOfDay(day, nowHour);
    assert now - start == (nowHour - startHour) * SecondsPerHour;
  }

  /** Hour `h` of any day is hour `h`. */
  lemma HourOfDay(day: int, h: int)
    requires 0 <= h < 24
    ensures HourOf(day * SecondsPerDay + h * SecondsPerHour) == h
  {
    var t := day * SecondsPerDay + h * SecondsPerHour;
    assert 0 <= h * SecondsPerHour < SecondsPerDay;
    assert t % SecondsPerDay == h * SecondsPerHour;
  }

  /**
   Corrected, the first tick at least three hours after the failure removes the
   retry, whatever the supplier returns, and no later tick finds it.
   */
  lemma {:induction false} StopsAfterThreeHours(s: LegacyScheduler, id: string, events: seq<TickEvent>, k: nat)
    requires id in s.futures
    requires k < |events| && events[k].now - s.futures[id].start >= DayScheduleDurationSeconds
    ensures id !in RunAll(Corrected, s, id, events).futures
    decreases |events|
  {
    var t := Run(Corrected, s, id, events[0].now, events[0].result);
    if id !in t.state.futures {
      RunAllAbsent(Corrected, t.state, id, events[1..]);
    } else {
      assert k != 0;
      assert events[1..][k - 1] == events[k];
      StopsAfterThreeHours(t.state, id, events[1..], k - 1);
    }
  }

  /** Ticks for an id with no retry change nothing. */
  lemma {:induction false} RunAllAbsent(rev: Revision, s: LegacyScheduler, id: string, events: seq<TickEvent>)
    requires id !in s.futures
    ensures RunAll(rev, s, id, events) == s
    decreases |events|
  {
    if events != [] {
      RunAllAbsent(rev, s, id, events[1..]);
    }
  }
}
