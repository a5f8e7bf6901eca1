/**
 * The record shapes shared by the whole application (src/types/index.ts).
 *
 * Timestamps are whole seconds counted from a Monday 00:00 local epoch, with
 * no daylight-saving shifts; see module DateUtils for the calendar fields.
 */
module Types {

  /** Where a session came from. The type declaration only lists 'local', but
      the timer writes 'web', the demo generator 'local' and the remote store
      defaults imported rows to 'imported'. */
  datatype Source = Web | Local | Imported

  datatype Session = Session(
    id: string,
    startTime: int,
    endTime: int,
    duration: int,   // seconds, stored independently of endTime - startTime
    source: Source)

  datatype Settings = Settings(weeklyGoal: real, exitFullscreenOnPause: bool)

  /** The settings written on first read when nothing is stored. */
  const DefaultSettings := Settings(80.0, true)
}
