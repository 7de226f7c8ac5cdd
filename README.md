# Focus-learn persistence core in Dafny

This project models the persistence layer of the focus-learn learning-journey
server, together with the code that turns a YouTube playlist into chapters.

- **The storage adapter** (`api/dbConnec.js`) keeps a process-wide database handle. The handle is `null` until start-up.
  - Start-up loads the snapshot file, creates any missing table of the five (`CREATE TABLE IF NOT EXISTS`), and saves the file.
  - `query` sends a statement down the read path when its text, trimmed and upper-cased, starts with `SELECT`. The read path steps through the result rows. The write path reports `insertId` and `affectedRows`, and writes the whole snapshot back after every write.
- **The journey repository** (`api/models/journeyModel.js`) provides create, read, list, update, delete and the public listing.
  - It can also fork a journey: one new private journey, a copy of each chapter, and a copy of each note onto the copy of its chapter.
  - The fork has no transaction. A failure part-way leaves what was already written.
- **The playlist mapping** (`api/controllers/playlistJourney.js`) numbers the chapters 1..n, fills in default titles, builds watch links and shortens long descriptions.
  - It raises "No videos found in playlist" for an empty list.
  - It serves two built-in demo chapters when the API key is a demo key. The built-in fallback key is one.

Modules, one per file:

| file | module | contents |
|---|---|---|
| `outcomes.dfy` | `Outcomes` | The failures and their messages; `Result`, `Option`. |
| `values.dfy` | `Values` | JavaScript values: truthiness, `||`, template text. SQLite values and how sql.js binds and reads them: `true` binds as 1, and `undefined` cannot be bound. |
| `sql_text.dfy` | `SqlText` | `trim`, `toUpperCase`, `startsWith`, and the read/write dispatch test. |
| `schema.dfy` | `Schema` | The five declared tables (columns, NOT NULL, defaults, foreign keys), `CREATE TABLE IF NOT EXISTS`, and when a schema has the declared columns. |
| `engine.dfy` | `Engine` | The in-memory image: tables of id-numbered rows with an AUTOINCREMENT counter. Also the statements the repository issues, with their literal SQL text, and what sql.js does with each: `prepare` resolves the tables and columns the text names, `SELECT` filters and joins, inserts check NOT NULL, `UPDATE`/`DELETE` count changed rows. |
| `storage.dfy` | `Storage` | Adapter state (handle, snapshot file, whether writing the file succeeds); the functions `Run` and `Initialized`; the class `Store` with `Init`, `Query`, `Save`. |
| `journey_model.dfy` | `JourneyModel` | The repository functions; the fork as a function `Fork` and as the methods `ForkJourney`/`ForkRest` with the two copy loops over a `Store`. |
| `effects.dfy` | `Effects` | The closed-form effect of each statement on a ready adapter. |
| `fork_properties.dfy` | `ForkProperties` | What a fork does, and what it leaves unchanged. |
| `journey_properties.dfy` | `JourneyProperties` | Create/read round trip, listing, update and delete. |
| `playlist.dfy` | `Playlist` | The playlist-item-to-chapter mapping and the demo fallback. |

The adapter's snapshot file, the handle, and whether `writeFileSync`
succeeds are all part of the adapter's state (`Storage.StoreState`). The
repository functions are stated on that state. The methods on `Store` are
proved equal to them: `Store.Query` equals `Run`, and `ForkJourney` equals
`Fork`.

The schema declares `ON DELETE CASCADE`, but the adapter never enables
enforcement: it never issues `PRAGMA foreign_keys`, and sql.js leaves it off.

- Deleting a journey therefore removes only the journey row (`JourneyProperties.DeleteOutcome`).
- A note may also name a chapter that does not exist; no foreign key stops it.

`CREATE TABLE IF NOT EXISTS` keeps any table already in the snapshot file,
whatever its columns. The engine therefore prepares each statement against
the tables actually present: a statement that names a missing table or column
fails before it runs. The error is "no such table: T" for a missing table.
An INSERT whose column list names a missing column gets SQLite's
"table T has no column named C". A SELECT, UPDATE or DELETE gets
"no such column: C", with C written as the text writes it. A fork
on a file whose `chapters` table lacks `chapter_no` stops at its first chapter
copy, after the new journey row has been inserted and saved
(`ForkProperties.ForkStopsAtChapterCopy`).

JavaScript strings are sequences of UTF-16 code units. The playlist mapping
measures and cuts descriptions in code units (`Playlist.JsString`), so a
character above U+FFFF counts twice, as it does in the source.

## Model

| member | source | states |
|---|---|---|
| Storage.Store.Init | api/dbConnec.js:12-43 | Start-up assigns the handle, creates the tables and saves; the new state and result are exactly `Initialized` of the old state. |
| Storage.Load | api/dbConnec.js:22-30 | A saved image reopens as exactly that image. A missing file opens as a database with no tables and no rows. |
| Storage.Initialized | api/dbConnec.js:12-43 | The handle is assigned in every case, a corrupt file included, and writability is kept. A failed start-up leaves the file as it was. A successful one holds a readable image, with last insert id 0. |
| Storage.InitEffect | api/dbConnec.js:12-43 | Start-up succeeds exactly when the file holds a database (or is missing) and can be written. Then all five tables exist, and tables found in the file keep their definitions. The rows are exactly those of the file (none when there was no file), and the file holds the image. |
| Storage.InitTwice | api/dbConnec.js:45-96 | Running start-up again on its own result leaves the state as the first one left it. |
| Effects.FreshStart | api/dbConnec.js:22-36 | Start-up without a file, on a writable disk, succeeds and leaves a ready, saved adapter whose database is empty apart from the five declared tables. |
| Effects.StartOnConformingFile | api/dbConnec.js:22-36 | Start-up on a file whose tables have the declared columns succeeds and leaves a ready, saved adapter holding the file's rows. |
| Schema.CreateTablesEffect | api/dbConnec.js:45-96 | After the five `CREATE TABLE IF NOT EXISTS` statements every table exists, existing ones are unchanged and missing ones get their declared definition. |
| Schema.CreateTablesIdempotent | api/dbConnec.js:46-93 | Creating the tables twice is the same as creating them once. |
| Schema.DeclaredNamesAgree | api/dbConnec.js:46-93 | The column-name lists are exactly the names each `CREATE TABLE` declares. |
| Schema.InitConforms | api/dbConnec.js:45-96 | After the five statements every table has its declared columns exactly when every table found in the file already had them: `IF NOT EXISTS` never alters a table that is there. |
| Storage.Store.Save | api/dbConnec.js:98-103 | Saving writes the image in memory to the file and leaves the handle; a failed write leaves the file as it was and reports the failure. |
| Storage.Store.Query | api/dbConnec.js:106-147 | `query` leaves exactly the state, and resolves with exactly the result, of `Run` on the old state. |
| Storage.Store.Finish | api/dbConnec.js:116-141 | After the statement ran: a read resolves with its rows; a write saves the file and then resolves with the insert id and change count. |
| Storage.StepAll | api/dbConnec.js:118-124 | The `while (stmt.step())` loop collects every row it is given, in order. The row-to-object conversion of `getAsObject` is done by `Engine.Select`, so the loop only copies. |
| Storage.Run | api/dbConnec.js:106-147 | A call never changes whether the file can be written. A failure other than the file write leaves the state unchanged, and the file changes only on a successful write that saves the image. |
| Storage.RunBeforeInit | api/dbConnec.js:109-112 | Before start-up every statement fails with "Database not initialized" and changes nothing. |
| Storage.ReadsChangeNothing | api/dbConnec.js:116-127 | A SELECT changes neither handle nor file and yields exactly the rows the engine selects. |
| Storage.SelectKeepsConnection | api/dbConnec.js:116-125 | Executing a SELECT leaves the connection (image and counters) unchanged. |
| Storage.WritesAreSaved | api/dbConnec.js:128-141 | A write succeeds exactly when the handle is set, the statement runs and the file can be written; then the file holds the new image. |
| SqlText.Trim | api/dbConnec.js:116 | The trimmed text neither starts nor ends with white space. |
| SqlText.TrimSplits | api/dbConnec.js:116 | `trim` keeps a contiguous middle part and drops only white space before and after it. |
| SqlText.IsReadIgnoresLeadingSpace | api/dbConnec.js:116 | Leading white space never changes whether a statement is sent down the read path. |
| SqlText.TrimIgnoresLeadingSpace | api/dbConnec.js:116 | Trimming ignores any white space put in front of the text. |
| SqlText.LeadingWord | api/dbConnec.js:116 | Text that is indentation, a six-letter capital keyword, then anything, is a read exactly when the keyword is SELECT. |
| SqlText.OpensWith | api/dbConnec.js:116 | The same decision, stated on a text's first white-space run and the six capitals after it. |
| SqlText.ToUpper | api/dbConnec.js:116 | Upper-casing keeps the length. |
| SqlText.LongSReads | api/dbConnec.js:116 | `"ſelect 1"` is sent down the read path: `toUpperCase` maps the long s to S. |
| Engine.Statement.Text | api/dbConnec.js:116 | The literal SQL of every statement the repository issues is dispatched to the read path exactly when the statement is a SELECT. |
| Engine.KeywordOf | api/models/journeyModel.js:14-235 | Each statement text opens with indentation and a six-letter capital keyword, which is SELECT exactly for the reads. |
| Engine.MissingColumn | api/dbConnec.js:117-129 | None exactly when every needed column exists. Otherwise it is a column the schema lacks, and every column needed before it exists. |
| Engine.PrepareError | api/dbConnec.js:117-129 | A statement that does not prepare fails on its first unresolved name: "no such table" for a missing table, "table … has no column named …" for an INSERT column, and "no such column" for a column named in a SELECT, UPDATE or DELETE. |
| Engine.ConformsPrepares | api/dbConnec.js:117-129 | A schema with the declared columns prepares every statement of the repository. |
| Engine.NeedIsDeclared | api/models/journeyModel.js:15-229 | Every column a statement's text names is declared for its table by the `CREATE TABLE` statements. |
| Engine.Exec | api/dbConnec.js:116-131 | A statement runs only when the file is a database, the statement prepares and every parameter binds. Running never changes the schema. A SELECT leaves the connection as it was, and a write yields no rows. |
| Engine.Select | api/dbConnec.js:117-124 | A SELECT yields no more rows than its table holds. A statement that is not a SELECT yields none. |
| Engine.Write | api/dbConnec.js:129-131 | A write yields no rows and keeps the schema, the users and the forked-journey records. A chapter or note insert also leaves the journeys as they were. |
| Engine.PublicJoin | api/models/journeyModel.js:225-230 | Without users, or without a journey whose `is_public` is 1, the join yields no rows. |
| Engine.Insert | api/dbConnec.js:55 | An AUTOINCREMENT insert appends the row under the next id, moves the counter on by one and keeps the table well formed. |
| Engine.Filter | api/models/journeyModel.js:23-28 | A WHERE clause keeps exactly the rows satisfying it (every kept row satisfies it, every satisfying row is kept) and no more rows than there were. |
| Engine.FilterAppend | api/models/journeyModel.js:162-165 | Filtering a concatenation filters each part. |
| Engine.FilterKeepsOrder | api/models/journeyModel.js:162-165 | Filtering rows in ascending id order keeps them in ascending order. |
| Engine.FilterWellFormed | api/models/journeyModel.js:40-43 | Deleting rows by a condition keeps the table well formed. |
| Engine.UpdateWhere | api/models/journeyModel.js:32-36 | An UPDATE keeps the number of rows and every row's id. |
| Values.FromSql | api/dbConnec.js:123 | Reading a stored value back gives a bindable value that binds to the same stored value. |
| Values.NatToStringReadsBack | api/controllers/playlistJourney.js:89 | The decimal text `${n}` inserts reads back as `n` and has no leading zero unless `n` is 0, so "Chapter N" carries the chapter's position. |
| Values.BindOr | api/models/journeyModel.js:175-178 | Binding `row[col] \|\| fallback` stores the column value when it is truthy and the fallback otherwise. |
| Effects.WriteOutcome | api/dbConnec.js:128-140 | On a ready adapter a rejected write changes nothing; one that runs is applied, with the file saved when it can be written, and reports `lastInsertRowid`. |
| Effects.AffectedOutcome | api/dbConnec.js:128-140 | The same for update and delete, the result being whether any row changed. |
| Effects.Refused | api/dbConnec.js:109-130 | A statement fails, changing nothing, in four cases: without a handle; on a file that is not a database; when the schema lacks a table or column the text names (the error names it); or with an `undefined` parameter. |
| Effects.ReadOutcome | api/dbConnec.js:116-127 | A read with bindable parameters on a ready adapter yields exactly the engine's selection. |
| Effects.Applied | api/dbConnec.js:138 | After a write the handle holds the new connection, the file holds its image when it can be written and otherwise is unchanged. |
| Effects.AppliedReady | api/dbConnec.js:128-140 | A write that keeps the schema leaves a ready adapter ready, reading back the database it wrote. |
| Effects.CreateOutcome | api/models/journeyModel.js:7-19 | `createJourney` stores its row, defaults applied, under the next id and returns that id, unless `is_public` is an explicit `null` (NOT NULL). |
| Effects.ForkInsertOutcome | api/models/journeyModel.js:154-159 | The fork's journey insert fails only on an `undefined` owner; otherwise it stores the forked row under the next id. |
| Effects.ChapterCopyOutcome | api/models/journeyModel.js:172-183 | A chapter copy never breaks NOT NULL; it stores the copied row under the next chapter id. |
| Effects.NoteCopyOutcome | api/models/journeyModel.js:198-206 | A note copy onto a truthy chapter id never breaks NOT NULL; it stores the copied note under the next note id. |
| Effects.PublicRows | api/models/journeyModel.js:224-235 | On a ready adapter the public listing is the join of the journeys with their owners that the engine computes. |
| JourneyModel.CreateStatement | api/models/journeyModel.js:7-18 | The defaults: title or "Untitled Journey", description or '', `is_public` true unless given, owner or `null`. The title is never NULL; `is_public` is NULL exactly when given as `null`. |
| JourneyModel.CreateJourney | api/models/journeyModel.js:7-20 | Before start-up it fails with "Database not initialized", changing nothing. Any failure other than the file write leaves the state as it was. The file changes only when the write succeeds, and then it holds the image. |
| JourneyModel.GetAllJourneys | api/models/journeyModel.js:22-25 | Before start-up it fails with "Database not initialized". The listing never holds more rows than the journey table. |
| JourneyModel.GetJourneyById | api/models/journeyModel.js:27-30 | Before start-up it fails with "Database not initialized". |
| JourneyModel.UpdateJourney | api/models/journeyModel.js:32-38 | Before start-up it fails, changing nothing. Any failure other than the file write leaves the state as it was. The file changes only when the write succeeds, and then it holds the image. |
| JourneyModel.DeleteJourney | api/models/journeyModel.js:40-43 | The same for `deleteJourney`. |
| JourneyModel.GetAllPublicJourneys | api/models/journeyModel.js:232-238 | Any failure reaches the caller only as "Error fetching public journeys". |
| JourneyProperties.CreateThenGet | api/models/journeyModel.js:7-30 | On a ready, writable adapter, `createJourney` resolves with the next journey id, and `getJourneyById` of that id then yields the new row. |
| JourneyProperties.CreateStored | api/models/journeyModel.js:7-19 | On a ready, writable adapter, `createJourney` resolves with the next id and leaves the adapter ready, with exactly its row appended to the journeys. |
| JourneyProperties.CreatedFields | api/models/journeyModel.js:9-12 | The stored row reads back with the given title (or "Untitled Journey"), description (or ''), `is_public` 1 unless given (a boolean reads back as 1/0), and owner (or NULL). |
| JourneyProperties.CreateRefused | api/models/journeyModel.js:14-18 | Before start-up, or on a corrupt file, `createJourney` is refused and nothing changes. |
| JourneyProperties.KeySelectsOne | api/models/journeyModel.js:28 | A row whose id no other row shares is the only row `WHERE id = ?` selects for that id. |
| JourneyProperties.NewestSelectsItself | api/models/journeyModel.js:28 | After an insert into a well-formed table, the new id selects exactly the new row. |
| JourneyProperties.IdsUnique | api/dbConnec.js:55 | In a well-formed table no two rows share an id. |
| JourneyProperties.GetNewest | api/models/journeyModel.js:27-30 | `getJourneyById` of the newest journey's id yields exactly that journey. |
| JourneyProperties.GetByIdFinds | api/models/journeyModel.js:27-30 | `getJourneyById` of a stored row's id yields that row. |
| JourneyProperties.GetByIdMissing | api/models/journeyModel.js:27-30 | `getJourneyById` of an id no row has yields `undefined`, not an error. |
| JourneyProperties.GetByIdRefused | api/models/journeyModel.js:27-30 | `getJourneyById` fails before start-up, on a corrupt file, or for an `undefined` id. |
| JourneyProperties.OwnerListing | api/models/journeyModel.js:22-25 | On a ready adapter `getAllJourneys` succeeds. Every listed row is the object of a stored journey owned by the argument, and carries that owner. Every such journey is listed. The rows come in ascending id order, and `null` lists nothing. |
| JourneyProperties.OwnedRows | api/models/journeyModel.js:23 | The same, stated on the rows of a table in ascending id: only owned rows, all of them, in ascending order. |
| JourneyProperties.OwnerRows | api/models/journeyModel.js:22-25 | On a ready adapter the owner listing is the owner filter over the stored journeys, as objects. |
| JourneyProperties.NullOwnsNothing | api/models/journeyModel.js:23 | `user_id = NULL` selects no row. |
| JourneyProperties.OwnedRowsSound | api/models/journeyModel.js:23 | Every listed row is the object of a stored row owned by the argument, and reads back with that owner. |
| JourneyProperties.OwnedRowsComplete | api/models/journeyModel.js:23 | Every stored row owned by the argument is listed. |
| JourneyProperties.OwnedRowsInOrder | api/models/journeyModel.js:23 | Rows stored in ascending id are listed in ascending id. |
| JourneyProperties.OwnerReadsBack | api/models/journeyModel.js:23-24 | An owned row reads back with the owner it was selected by; a boolean owner reads back as a number. |
| JourneyProperties.ObjectsOfFilter | api/dbConnec.js:122-124 | The objects of a WHERE are exactly the objects of the rows it selects. |
| JourneyProperties.JourneysInOrder | api/dbConnec.js:122-124 | Journey objects of rows in ascending id carry ascending numeric ids. |
| JourneyProperties.FilterNonEmpty | api/models/journeyModel.js:37 | A WHERE selects something exactly when some row satisfies it. |
| JourneyProperties.UpdateOutcome | api/models/journeyModel.js:32-38 | NULL in a NOT NULL column is refused only when some row matches id and owner. Otherwise exactly the matching rows take the new values, the file is saved, and the result says whether a row matched. |
| JourneyProperties.UpdateTouchesOnlyMatches | api/models/journeyModel.js:34 | A row not matched by the update is unchanged; a matched row keeps its id and owner. |
| JourneyProperties.UpdateNeedsEveryField | api/models/journeyModel.js:35 | Any field left `undefined` makes the update fail with nothing changed. |
| JourneyProperties.DeleteOutcome | api/models/journeyModel.js:40-43 | Exactly the rows matching id and owner are removed, chapters and notes stay (no cascade), and the result says whether one matched. |
| JourneyProperties.DeleteKeepsTheRest | api/models/journeyModel.js:41 | A row survives the delete exactly when it does not match id and owner. |
| JourneyProperties.PublicListing | api/models/journeyModel.js:224-239 | On a ready adapter, a row is listed exactly when it joins a stored journey with `is_public = 1` to the stored user its `user_id` names. A private journey, or one whose owner has no user row, is never listed. Before start-up, on a corrupt file, or on a schema lacking a joined column, the caller sees only "Error fetching public journeys". |
| JourneyProperties.PublicJoinMembers | api/models/journeyModel.js:225-230 | A row is in the join exactly when it is the join row of a stored journey with `is_public = 1` and the stored user its `user_id` names. |
| JourneyProperties.JoinHeadMembers | api/models/journeyModel.js:226-229 | The same for the rows one journey contributes. |
| JourneyModel.ForkJourney | api/models/journeyModel.js:139-219 | The method leaves exactly the state, and returns exactly the result, of `Fork`. |
| JourneyModel.Fork | api/models/journeyModel.js:139-219 | Before start-up the fork fails with "Database not initialized", changing nothing. |
| JourneyModel.CopyChapters | api/models/journeyModel.js:168-186 | The chapter loop keeps writability. Before start-up it changes nothing and, when there is a chapter, fails with "Database not initialized". What it inserts and maps is stated by `ForkProperties.CopyChaptersEffect`. |
| JourneyModel.CopyNotes | api/models/journeyModel.js:194-209 | When no note's chapter id is in the map, the note loop writes nothing and succeeds. |
| JourneyModel.ForkFrom | api/models/journeyModel.js:151-159 | Step 2 and what follows equal `ForkCreate`. |
| JourneyModel.ForkRest | api/models/journeyModel.js:161-211 | Steps 3 and 4 equal `ForkContents`. |
| JourneyModel.CopyChapterRows | api/models/journeyModel.js:168-186 | The chapter loop equals `CopyChapters` from an empty id map. |
| JourneyModel.CopyChapterRow | api/models/journeyModel.js:172-184 | One pass of the chapter loop advances `CopyChapters` by one chapter. |
| JourneyModel.CopyNoteRows | api/models/journeyModel.js:194-209 | The note loop equals `CopyNotes`. |
| JourneyModel.CopyNoteRow | api/models/journeyModel.js:195-207 | One pass of the note loop advances `CopyNotes` by one note. |
| JourneyModel.ReadRows | api/models/journeyModel.js:142-145 | A read through the adapter object changes nothing and yields `RowsOf`. |
| JourneyModel.WriteRow | api/models/journeyModel.js:154-159 | A write through the adapter object yields `InsertId`. |
| ForkProperties.CopyChaptersEffect | api/models/journeyModel.js:170-186 | On a ready, writable adapter the chapter loop appends one copy per chapter under consecutive ids and maps each source id to its copy's id. |
| ForkProperties.CopyNotesEffect | api/models/journeyModel.js:194-209 | The note loop appends, in order, a copy of exactly the notes whose chapter was copied, under consecutive ids. |
| ForkProperties.ForkContentsEffect | api/models/journeyModel.js:161-211 | Steps 3 and 4 run to the end, the file ends up saved, and the database is the source's chapters and notes copied into the new journey. |
| ForkProperties.ForkCreateEffect | api/models/journeyModel.js:153-211 | From step 2 on: the new journey's id is returned and the database holds the new journey and the copies. |
| ForkProperties.ForkSucceeds | api/models/journeyModel.js:139-211 | For an existing journey and a bindable owner on a writable adapter, the fork returns the next journey id and leaves, saved to the file, exactly the reference description `ForkedDatabase`. |
| ForkProperties.ForkStarts | api/models/journeyModel.js:142-151 | Once the source journey is found, the fork continues with step 2 on the first row found. |
| ForkProperties.ForkWithoutSnapshot | api/models/journeyModel.js:154-159 | When the file cannot be written the fork fails after its first insert. The new journey row stays in memory (nothing is rolled back) and the file is unchanged. |
| ForkProperties.PreparesWithoutChapterNo | api/dbConnec.js:63-73 | On a file whose `chapters` table lacks `chapter_no`, every statement that does not name that column still prepares. |
| ForkProperties.ChapterInsertError | api/models/journeyModel.js:172-181 | On such a file the chapter insert does not prepare, and the error reads "table chapters has no column named chapter_no". |
| ForkProperties.ChapterCopyFails | api/models/journeyModel.js:172-181 | On such a file a chapter copy fails with that error and changes nothing. |
| ForkProperties.ForkContentsStops | api/models/journeyModel.js:161-186 | On such a file, for a source with chapters, steps 3 and 4 stop at the first chapter copy, with its error. |
| ForkProperties.ForkCreateStops | api/models/journeyModel.js:153-186 | From step 2 on, on such a file: the journey insert is applied and saved, then the first chapter copy fails. |
| ForkProperties.ForkInsertPrepares | api/models/journeyModel.js:154-159 | On such a file the fork's journey insert still prepares: it names no column of the chapters table. |
| ForkProperties.ForkInsertSaved | api/models/journeyModel.js:154-159 | On such a writable file the fork's journey insert stores the forked row under the next id, is saved, and reports that id. |
| ForkProperties.ForkedContentsStop | api/models/journeyModel.js:161-181 | On the state that insert leaves, steps 3 and 4 stop at the first chapter copy and change nothing more. |
| ForkProperties.ForkStopsAtChapterCopy | api/models/journeyModel.js:139-219 | On such a file a fork of a journey with chapters rethrows the chapter insert's error. The new journey row, already inserted and saved to the file, stays; nothing is rolled back. |
| ForkProperties.ForkRefused | api/models/journeyModel.js:142-157 | No handle, a corrupt file, an `undefined` journey id, a missing journey ("Journey not found") and an `undefined` owner each fail before anything is written. |
| ForkProperties.ForkedTables | api/models/journeyModel.js:139-211 | A fork adds one journey row, the chapter copies and the note copies, and leaves users, forked-journey records and the schema unchanged. |
| ForkProperties.ForkedRowFields | api/models/journeyModel.js:154-157 | The forked journey is private, belongs to the forking user, keeps the description (or ''), and is titled "Fork of " plus the original title, or "Fork of Untitled" when that is empty or NULL. |
| ForkProperties.CopiedChapterFields | api/models/journeyModel.js:172-181 | A copied chapter keeps each truthy field, takes the loop's default otherwise, has no external link, is not completed, and belongs to the new journey. |
| ForkProperties.CopiedNoteFields | api/models/journeyModel.js:199-206 | A copied note keeps its content (or ''), points at the copied chapter and belongs to the new journey. |
| ForkProperties.IdMapKeys | api/models/journeyModel.js:168-185 | After the chapter loop the id map's keys are exactly the source chapter ids. |
| ForkProperties.IdMapUntouched | api/models/journeyModel.js:184 | A key the loop never meets keeps its value. |
| ForkProperties.IdMapLast | api/models/journeyModel.js:184 | A chapter id maps to the id of the copy made for its last occurrence. |
| ForkProperties.SourceChaptersDistinct | api/models/journeyModel.js:162-165 | The chapters the fork reads have distinct ids. |
| ForkProperties.NoteCopiedIff | api/models/journeyModel.js:196-198 | A note is copied exactly when its `chapter_id` is the id of a source chapter. |
| ForkProperties.NoteFollowsItsChapter | api/models/journeyModel.js:196-206 | A copied note points at the copy of its own chapter: the k-th source chapter's copy has id chapter counter + 1 + k. |
| ForkProperties.NoteLookup | api/models/journeyModel.js:196 | The same two facts, stated for any list of chapters with distinct ids. |
| ForkProperties.PublicJoinSkipsPrivate | api/models/journeyModel.js:229 | A journey with `is_public` 0 adds nothing to the public join. |
| ForkProperties.ForkKeepsPublicListing | api/models/journeyModel.js:156 | A successful fork leaves `getAllPublicJourneys` exactly as it was: the new journey is private. |
| ForkProperties.ForkedPublicJoin | api/models/journeyModel.js:225-230 | The public join of a forked database equals that of the original. |
| ForkProperties.AppendFresh | api/dbConnec.js:64 | Appending rows numbered on from the counter keeps a table well formed. |
| ForkProperties.WithForkedJourney | api/models/journeyModel.js:154-157 | The fork's journey insert changes only the journey table: one row appended under the next id. |
| Playlist.ApiKey | api/controllers/playlistJourney.js:5 | The key used is `YT_KEY` when it is set and non-empty, and the fallback key otherwise; it is never empty. |
| Playlist.FallbackIsDemo | api/controllers/playlistJourney.js:5 | The fallback key contains "demo" (at index 26), so it selects the demo chapters. |
| Playlist.Utf16Char | api/controllers/playlistJourney.js:80 | A character takes one code unit up to U+FFFF, and a surrogate pair above. |
| Playlist.Utf16 | api/controllers/playlistJourney.js:80 | A string never has fewer code units than characters. |
| Playlist.Utf16OfBmp | api/controllers/playlistJourney.js:80 | A string without characters above U+FFFF has one code unit per character, each its code. |
| Playlist.Utf16OfAstral | api/controllers/playlistJourney.js:80 | A string of characters above U+FFFF only has two code units per character. |
| Playlist.BmpUnits | api/controllers/playlistJourney.js:53-59 | The code units of a literal text keep its length. |
| Playlist.BmpUnitsAgree | api/controllers/playlistJourney.js:53-59 | For a text without characters above U+FFFF these are exactly its UTF-16 code units. |
| Playlist.LastSpace | api/controllers/playlistJourney.js:84 | `lastIndexOf(' ')` is -1 or the code-unit index of a space, with no space after it. |
| Playlist.Truncate | api/controllers/playlistJourney.js:80-86 | Lengths and indices count UTF-16 code units. At most 150: unchanged. Longer: a prefix plus "...", at most 153 units. The prefix is the first 150 units, cut back to the last space among them when that index is above 0. |
| Playlist.TitleOf | api/controllers/playlistJourney.js:89 | The title is the item's non-empty title, or "Chapter N"; it is never empty. |
| Playlist.ToChapters | api/controllers/playlistJourney.js:77-94 | One chapter per item, numbered 1, 2, ... in order. |
| Playlist.ChapterFields | api/controllers/playlistJourney.js:77-94 | Each chapter has the item's title or "Chapter i+1", and the watch link prefix followed by the video id. Its description is '' when absent or empty, kept when at most 150 code units, and shortened otherwise. |
| Playlist.AstralDescriptionShortened | api/controllers/playlistJourney.js:80-86 | A description of 76 to 150 characters, each above U+FFFF, is over the limit in code units and is shortened. |
| Playlist.ChaptersAppend | api/controllers/playlistJourney.js:77 | A chapter depends only on its item and its position: mapping one more item appends one chapter. |
| Playlist.DemoChapters | api/controllers/playlistJourney.js:49-62 | The demo list has two chapters, numbered 1 and 2. |
| Playlist.DemoShape | api/controllers/playlistJourney.js:49-62 | The demo chapters have watch links, descriptions within the limit and non-empty titles. |
| Playlist.PlaylistVideos | api/controllers/playlistJourney.js:45-95 | A demo key gives the demo chapters. Otherwise an absent or empty item list fails with "No videos found in playlist", and a non-empty one gives one numbered chapter per item. |
| Playlist.WithoutKey | api/controllers/playlistJourney.js:5-62 | Without `YT_KEY` the demo chapters are served, whatever the playlist holds. |
| Playlist.VideosResult | api/controllers/playlistJourney.js:73-94 | With a real key the call succeeds exactly when there are items; the result is their mapping, and the failure's message is "No videos found in playlist". |

## Left out

- Network access: the `fetch` calls to the YouTube API and their status handling are not modelled. The response's `items` field is a parameter of `Playlist.PlaylistVideos`.
- `getPlaylistDetails` is not modelled: it is a fetch plus a fixed demo answer.
- Logging (`logger.error`, `logger.debug`) is not modelled.
- The commented-out transactional fork is not modelled; it is dead code.
- `execute` is the same function as `query`. The model has one entry point, `Storage.Run`.
- The file path, `fs.readFileSync` and the wasm loading of sql.js are not modelled.
  - A read failure is a missing file.
  - Whether `writeFileSync` succeeds is a fixed flag of the adapter state (`writable`). A disk that fills up part-way through a run is not modelled.
- SQLite specifics:
  - Column type affinity is not modelled: a text "5" and the integer 5 compare as different values.
  - Floating-point numbers are not modelled: numbers are integers.
  - The UNIQUE constraint on `users.email` is not modelled; the core never writes users.
  - `created_at`/`updated_at` timestamps are not modelled.
  - The AUTOINCREMENT counter is unbounded. SQLite fails with SQLITE_FULL once the largest rowid, 2^63-1, is used; the model does not.
  - A table found in the snapshot is checked only for the columns a statement names. Its column types, NOT NULL flags and defaults are taken to be the declared ones.
- Foreign keys and cascades are declared but not enforced; the model follows sql.js, which leaves enforcement off.
- `lastInsertRowid` falls back to 0 with `|| 0`, and the counter is never 0 after an insert. The model reports the connection's last insert id directly. Its value after an UPDATE or DELETE is not modelled. sql.js's `export()`, called by every save, closes and reopens the connection, which may reset it.
- The `[result, null]` pair the adapter resolves with is the `QueryResult` alone.
- `Values.JsValue` has no objects or arrays. The repository binds only the fields it reads; an object or array passed as a field would make sql.js's `bind` throw, which is not modelled.
- `SqlText.ToUpper`: only the ASCII letters and the two letters whose upper case is an ASCII letter (dotless i and long s) are upper-cased. Every other letter keeps its case. Upper-casings that change the length, such as ß to SS, are not modelled. Any of these could change the outcome of the SELECT test for a text that opens with such a letter.
- `chapterIdMap` is a JavaScript object, so its keys are converted to strings. The model keys it by the value read from the row, which agrees with the source when chapter ids and notes' `chapter_id` are integers or NULL. A text `chapter_id` naming an `Object.prototype` property, such as "constructor", would find an inherited function in the source, whose bind would then throw. The model skips such a note instead.
- Playlist items whose `snippet` or `resourceId` is missing are not modelled; the source throws a TypeError on them. `Playlist.Item` also takes `title` and `description` to be strings when present.
- Titles and video ids of playlist items are kept as characters, not code units: the source only copies them.
- `Playlist.BmpUnits`: the demo descriptions are written with characters up to U+FFFF only. A character above U+FFFF would be given one code unit, U+FFFD; `Playlist.BmpUnitsAgree` shows the encoding is exact for such texts.
- `ForkProperties.ForkSucceeds`: does not state the connection's final `lastInsertRowid` and change counters, only the image, the file and the result.
- `ForkProperties.ForkWithoutSnapshot`: covers a file that cannot be written at all, not one whose write fails part-way through the loops. A fork that stops part-way on a missing column is covered by `ForkProperties.ForkStopsAtChapterCopy`.
