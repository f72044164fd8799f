/**
 The retry scheduler. A submitted task runs once on one of two pools, chosen by
 how long its previous run took. If that run returns false, a retry is
 registered under the task id. The retry's timer runs it again and again until
 it succeeds, until it has been run the configured number of times, or until
 a tick falls after the deadline fixed at submission.

 Time is whole seconds on the local clock. The pools and the timer become
 events: a submission, the first run finishing, and each timer tick, with the
 supplier's result passed in.
 */
module ScheduledUtil {
  import opened Wrappers
  import opened SupplierOutcome
  import opened ScheduleConfig
  import opened SchedulePoolEnum
  import TaskRegistry

  /** `MAX_TIME`: a task whose last run took at most this many seconds is quick. */
  const MaxTime: int := 10
  /** `DEFAULT_TIME`: the duration assumed for a task that has never run. */
  const DefaultTime: int := 100

  /** A `ScheduledRunnable` without its supplier: the task id, how many ticks it has seen, and its deadline. */
  datatype ScheduledRunnable = ScheduledRunnable(taskId: string, retryTimes: int, deadline: int)

  /** The two static maps: the registered retries (`FUTURE_MAP`) and each id's last duration (`TASK_TIME_MAP`). */
  datatype Scheduler = Scheduler(futures: map<string, ScheduledRunnable>, taskTimes: map<string, int>)

  /**
   The pool a task's first run goes to: the quick pool exactly when its last
   recorded run took at most ten seconds. A task with no record counts as 100
   seconds and goes to the standard pool.
   */
  function Classify(taskTimes: map<string, int>, id: string): (pool: SchedulePool)
    ensures pool == QuickHandler <==> id in taskTimes && taskTimes[id] <= MaxTime
  {
    var seconds := if id in taskTimes then taskTimes[id] else DefaultTime;
    if seconds <= MaxTime then QuickHandler else ThreadPool
  }

  datatype Submission = Submission(pool: SchedulePool, runnable: ScheduledRunnable)

  /**
   `getSupplier(taskId, supplier)` at time `now`. The runnable starts with no
   ticks and a deadline `maxRetryInterval` after `now`. It throws before
   anything is queued when `init` left `maxRetryIntervalUnit` unresolved.
   */
  function GetSupplier(s: Scheduler, cfg: Config, id: string, now: int): (r: Result<Submission, Exception>)
    ensures cfg.maxRetryIntervalUnit.None? <==> r == Failure(NullPointerException)
    ensures r.Failure? <==> cfg.maxRetryIntervalUnit.None?
    ensures r.Success? ==> r.value.runnable.taskId == id && r.value.runnable.retryTimes == 0
    ensures r.Success? ==> r.value.runnable.deadline == now + ToSeconds(cfg.maxRetryIntervalUnit.value, cfg.maxRetryInterval)
    ensures r.Success? ==> r.value.pool == Classify(s.taskTimes, id)
  {
    match cfg.maxRetryIntervalUnit
      case None => Failure(NullPointerException)
      case Some(unit) =>
        var deadline := now + ToSeconds(unit, cfg.maxRetryInterval);
        Success(Submission(Classify(s.taskTimes, id), ScheduledRunnable(id, 0, deadline)))
  }

  /**
   Whether `scheduleWithFixedDelay(task, retryInterval, retryInterval, retryIntervalUnit)`
   throws: a `null` unit is a `NullPointerException`, a delay that is not positive an
   `IllegalArgumentException`.
   */
  function ScheduleFailure(cfg: Config): (e: Option<Exception>)
    ensures e.None? <==> cfg.retryIntervalUnit.Some? && cfg.retryInterval > 0
  {
    if cfg.retryIntervalUnit.None? then Some(NullPointerException)
    else if cfg.retryInterval <= 0 then Some(IllegalArgumentException)
    else None
  }

  /**
   `addTask(retryTask)`. An id that already has a retry keeps it, and nothing is
   scheduled, so a bad configuration does not throw then. Otherwise the retry is
   scheduled and registered, unless scheduling throws.
   */
  function AddTask(s: Scheduler, cfg: Config, task: ScheduledRunnable): (r: Result<Scheduler, Exception>)
    ensures task.taskId in s.futures ==> r == Success(s)
    ensures task.taskId !in s.futures && ScheduleFailure(cfg).Some? ==> r == Failure(ScheduleFailure(cfg).value)
    ensures task.taskId !in s.futures && ScheduleFailure(cfg).None?
        ==> r == Success(s.(futures := s.futures[task.taskId := task]))
    ensures r.Failure? <==> task.taskId !in s.futures && ScheduleFailure(cfg).Some?
    ensures r.Success? ==> r.value == s.(futures := TaskRegistry.AddTask(s.futures, task.taskId, task))
  {
    if task.taskId in s.futures then Success(s)
    else match ScheduleFailure(cfg)
      case Some(e) => Failure(e)
      case None => Success(s.(futures := TaskRegistry.AddTask(s.futures, task.taskId, task)))
  }

  /** `remove(taskId)`: deletes that id's retry, if it has one. */
  function Remove(s: Scheduler, id: string): (r: Scheduler)
    ensures r.futures == TaskRegistry.Remove(s.futures, id) && r.taskTimes == s.taskTimes
  {
    s.(futures := TaskRegistry.Remove(s.futures, id))
  }

  /**
   The consumer `cff`, run on a pool: the first run of `task` ends with `outcome`
   after `elapsed` seconds. A false result registers the retry. A true result
   registers nothing, and neither does an exception, which is only logged; an
   exception from `addTask` is caught the same way. Whatever happened, the id's
   duration is overwritten with `elapsed`, and no other id's duration changes.
   */
  function Accept(s: Scheduler, cfg: Config, task: ScheduledRunnable, outcome: Outcome, elapsed: int): (r: Scheduler)
    ensures r.taskTimes == s.taskTimes[task.taskId := elapsed]
    ensures outcome != ReturnedFalse ==> r.futures == s.futures
    ensures outcome == ReturnedFalse && task.taskId !in s.futures && ScheduleFailure(cfg).None?
        ==> r.futures == s.futures[task.taskId := task]
    ensures task.taskId in s.futures || ScheduleFailure(cfg).Some? ==> r.futures == s.futures
  {
    var afterRun :=
      if outcome == ReturnedFalse then
        match AddTask(s, cfg, task)
          case Success(t) => t
          case Failure(_) => s
      else s;
    afterRun.(taskTimes := s.taskTimes[task.taskId := elapsed])
  }

  /** The state after a timer tick, and whether the supplier was called. */
  datatype Tick = Tick(state: Scheduler, supplierCalled: bool)

  /**
   `ScheduledRunnable.run()` for the retry registered under `id`, at time `now`,
   where `result` is what the supplier would return. The tick count goes up
   first. A retry that has already seen `maxRetryTimes` ticks is removed
   without calling the supplier. So is one ticking strictly after its deadline;
   the count is checked first. Otherwise the supplier runs, and a true result
   removes the retry. An id with no registered retry has no timer, so its tick
   changes nothing.
   */
  function Run(s: Scheduler, cfg: Config, id: string, now: int, result: bool): (r: Tick)
    ensures r.state.taskTimes == s.taskTimes
    ensures r.state.futures - {id} == s.futures - {id}
    ensures id !in s.futures ==> r == Tick(s, false)
    ensures id in s.futures && s.futures[id].retryTimes >= cfg.maxRetryTimes
        ==> !r.supplierCalled && id !in r.state.futures
    ensures id in s.futures && s.futures[id].retryTimes < cfg.maxRetryTimes && now > s.futures[id].deadline
        ==> !r.supplierCalled && id !in r.state.futures
    ensures id in s.futures && s.futures[id].retryTimes < cfg.maxRetryTimes && now <= s.futures[id].deadline
        ==> r.supplierCalled && (id in r.state.futures <==> !result)
    ensures id in r.state.futures
        ==> r.state.futures[id] == s.futures[id].(retryTimes := s.futures[id].retryTimes + 1)
  {
    if id !in s.futures then Tick(s, false)
    else
      var task := s.futures[id];
      if task.retryTimes >= cfg.maxRetryTimes then Tick(Remove(s, id), false)
      else if now > task.deadline then Tick(Remove(s, id), false)
      else if result then Tick(Remove(s, id), true)
      else Tick(s.(futures := s.futures[id := task.(retryTimes := task.retryTimes + 1)]), true)
  }

  /** One timer tick: its time and what the supplier would return. */
  datatype TickEvent = TickEvent(now: int, result: bool)

  /** A run of ticks for one id: the final state and how many times the supplier was called. */
  function RunAll(s: Scheduler, cfg: Config, id: string, events: seq<TickEvent>): (Scheduler, nat)
    decreases |events|
  {
    if events == [] then (s, 0)
    else
      var t := Run(s, cfg, id, events[0].now, events[0].result);
      var rest := RunAll(t.state, cfg, id, events[1..]);
      (rest.0, rest.1 + if t.supplierCalled then 1 else 0)
  }

  /** How many more supplier calls the retry under `id` may make. */
  function Budget(s: Scheduler, cfg: Config, id: string): nat {
    if id in s.futures && s.futures[id].retryTimes < cfg.maxRetryTimes
    then cfg.maxRetryTimes - s.futures[id].retryTimes
    else 0
  }

  /** Ticks for an id with no retry change nothing and call nothing. */
  lemma {:induction false} RunAllAbsent(s: Scheduler, cfg: Config, id: string, events: seq<TickEvent>)
    requires id !in s.futures
    ensures RunAll(s, cfg, id, events) == (s, 0)
    decreases |events|
  {
    if events != [] {
      RunAllAbsent(s, cfg, id, events[1..]);
    }
  }

  /**
   Across any run of ticks the supplier is called at most as many times as the
   retry has ticks left before `maxRetryTimes`; once more ticks than that have
   come, the retry is gone.
   */
  lemma {:induction false} RunAllBounded(s: Scheduler, cfg: Config, id: string, events: seq<TickEvent>)
    ensures RunAll(s, cfg, id, events).1 <= Budget(s, cfg, id)
    ensures |events| > Budget(s, cfg, id) ==> id !in RunAll(s, cfg, id, events).0.futures
    decreases |events|
  {
    if events == [] {
    } else {
      var t := Run(s, cfg, id, events[0].now, events[0].result);
      if id in t.state.futures {
        RunAllBounded(t.state, cfg, id, events[1..]);
        assert Budget(t.state, cfg, id) + 1 == Budget(s, cfg, id);
      } else {
        RunAllAbsent(t.state, cfg, id, events[1..]);
      }
    }
  }

  /** `maxRetryTimes`, or none when it is not positive. */
  function RetryLimit(cfg: Config): nat {
    if cfg.maxRetryTimes > 0 then cfg.maxRetryTimes else 0
  }

  /**
   A submitted task whose first run returns false is retried at most
   `maxRetryTimes` times, and after `maxRetryTimes + 1` ticks its retry is gone.
   */
  lemma RetriesBounded(s: Scheduler, cfg: Config, id: string, now: int, elapsed: int, events: seq<TickEvent>)
    requires GetSupplier(s, cfg, id, now).Success? && id !in s.futures
    ensures var task := GetSupplier(s, cfg, id, now).value.runnable;
            RunAll(Accept(s, cfg, task, ReturnedFalse, elapsed), cfg, id, events).1 <= RetryLimit(cfg)
    ensures var task := GetSupplier(s, cfg, id, now).value.runnable;
            |events| > RetryLimit(cfg) ==> id !in RunAll(Accept(s, cfg, task, ReturnedFalse, elapsed), cfg, id, events).0.futures
  {
    var task := GetSupplier(s, cfg, id, now).value.runnable;
    var s1 := Accept(s, cfg, task, ReturnedFalse, elapsed);
    assert id in s1.futures ==> s1.futures[id] == task;
    assert Budget(s1, cfg, id) <= RetryLimit(cfg);
    RunAllBounded(s1, cfg, id, events);
  }

  /** The deadline a retry was given at submission is the one every later tick compares against. */
  lemma {:induction false} RunAllKeepsDeadline(s: Scheduler, cfg: Config, id: string, events: seq<TickEvent>)
    requires id in s.futures
    ensures var r := RunAll(s, cfg, id, events).0;
            id in r.futures ==> r.futures[id].deadline == s.futures[id].deadline
    decreases |events|
  {
    if events != [] {
      var t := Run(s, cfg, id, events[0].now, events[0].result);
      if id in t.state.futures {
        RunAllKeepsDeadline(t.state, cfg, id, events[1..]);
      } else {
        RunAllAbsent(t.state, cfg, id, events[1..]);
      }
    }
  }
}
