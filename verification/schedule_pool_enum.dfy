/** The two thread pools a retried task can run on. */
module SchedulePoolEnum {
  import opened Wrappers
  import BaseEnum

  datatype SchedulePool = QuickHandler | ThreadPool

  /** `getValue()`. */
  function Value(p: SchedulePool): int {
    match p
      case QuickHandler => 0
      case ThreadPool => 1
  }

  /** `equalsValue` tells the two pools apart: each matches its own value and not the other's. */
  lemma EqualsValueDistinguishes(p: SchedulePool, q: SchedulePool)
    ensures BaseEnum.EqualsValue(Value(p), Some(Value(q))) <==> p == q
  {
  }
}
