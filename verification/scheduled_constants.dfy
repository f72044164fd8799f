/** The fixed retry policy of the older scheduler: for how long, and how often. */
module ScheduledConstants {

  /** `DAY_SCHEDULE_DURATION_HOUR`: a daily job is retried for at most this many hours. */
  const DayScheduleDurationHour: int := 3

  /** `DAY_SCHEDULE_INTERVAL`: seconds between two retries. */
  const DayScheduleInterval: int := 300

  /** The retry duration in seconds. */
  const DayScheduleDurationSeconds: int := DayScheduleDurationHour * 3600
}
