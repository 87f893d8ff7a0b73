/**
 * The `Notification` schema: a weekly study reminder for one subject, due at
 * one (weekday, hour, minute) triple.
 */
module NotificationModel {
  import opened Wrappers
  import opened Text
  import opened Store

  /** `time.hour` and `time.minute` are plain numbers: the schema puts no range on them. */
  datatype Notification = Notification(subjectId: string, day: string, hour: int, minute: int, userId: string)

  const Weekdays: seq<string> := ["Sunday", "Monday", "Tuesday", "Wednesday", "Thursday", "Friday", "Saturday"]

  predicate ValidDay(day: string) {
    day in Weekdays
  }

  /** The schema validators: both ids are required and the day must be an English weekday name. */
  function Validate(n: Notification): (r: Option<DbError>)
    ensures r.None? <==> n.subjectId != "" && n.userId != "" && ValidDay(n.day)
  {
    if n.subjectId == "" then Some(ValidationError("subjectId"))
    else if !ValidDay(n.day) then Some(ValidationError("day"))
    else if n.userId == "" then Some(ValidationError("userId"))
    else None
  }

  /** The `{ day, "time.hour", "time.minute" }` query of one scheduler tick. */
  function DueAt(day: string, hour: int, minute: int): Notification -> bool {
    (n: Notification) => n.day == day && n.hour == hour && n.minute == minute
  }
}
