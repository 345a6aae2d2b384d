/**
 The rows of the timesheets table as they arrive at the transform stages:
 one punch per row, with the clock times already parsed into durations.
 */
module Punches {
  import opened Wrappers

  /** A pandas Timedelta, in whole seconds: a time of day, or a time past the
      midnight that starts the punch date (1 day 08:00:00 is 115200). */
  type Duration = int

  const Hour: Duration := 3600
  const Day: Duration := 24 * Hour

  /** A calendar date, already split into its parts. */
  datatype Date = Date(year: int, month: int, day: int)

  /** One row of timesheets.csv; its position in the table is its index label. */
  datatype Punch = Punch(
    timesheetId: int,
    employeeId: int,
    date: Date,
    checkin: Option<Duration>,
    checkout: Option<Duration>)
}
