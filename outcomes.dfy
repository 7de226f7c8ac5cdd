/** Failures the core can report, and the Result type that carries them.
    A rejected Promise in the source is an `Err`, a resolved one an `Ok`. */
module Outcomes {

  datatype Error =
    | NotInitialized          // query/execute before initDatabase assigned the handle
    | NotADatabase            // the snapshot file could not be opened as a database
    | NoSuchTable(table: string)                   // `prepare` on a table the schema lacks
    | NoSuchColumn(table: string, column: string)  // `prepare` of a SELECT, UPDATE or DELETE naming a column the table lacks
    | NoColumnNamed(table: string, column: string) // `prepare` of an INSERT whose column list names a column the table lacks
    | BindError               // sql.js refuses to bind `undefined`
    | NotNullViolation(column: string)
    | IoFailure               // writeFileSync of the snapshot failed
    | JourneyNotFound         // forkJourney on a missing source journey
    | PublicFetchFailed       // getAllPublicJourneys replaces any failure by this one
    | NoVideosFound           // empty or absent playlist item list

  /** The message each failure carries. For `IoFailure` the source passes on the message of the
      `fs.writeFileSync` error itself, which depends on the platform; the text here stands in for it. */
  function Message(e: Error): string
  {
    match e
    case NotInitialized => "Database not initialized"
    case NotADatabase => "file is not a database"
    case NoSuchTable(table) => "no such table: " + table
    case NoSuchColumn(_, column) => "no such column: " + column
    case NoColumnNamed(table, column) => "table " + table + " has no column named " + column
    case BindError => "Wrong API use : tried to bind a value of an unknown type (undefined)."
    case NotNullViolation(column) => "NOT NULL constraint failed: " + column
    case IoFailure => "writing the snapshot file failed"
    case JourneyNotFound => "Journey not found"
    case PublicFetchFailed => "Error fetching public journeys"
    case NoVideosFound => "No videos found in playlist"
  }

  datatype Result<+T> = Ok(value: T) | Err(error: Error)

  datatype Option<+T> = None | Some(value: T)
}
