/** What each statement of the repository does to the adapter's state, in closed
    form: the rows an insert adds, the `insertId` it reports, and when the file
    is saved. The property modules reason with these instead of re-running the
    engine step by step. */
module Effects {
  import opened Values
  import opened Schema
  import opened Outcomes
  import opened Engine
  import opened Storage
  import opened JourneyModel

  /** The adapter holds an open, readable database. */
  predicate Opened(st: StoreState)
  {
    st.db.Some? && st.db.value.image.Db?
  }

  function DbOf(st: StoreState): SoundDatabase
    requires Opened(st)
  {
    st.db.value.image.db
  }

  /** An open database whose tables have the declared columns: every statement of the repository prepares. */
  ghost predicate Ready(st: StoreState)
  {
    Opened(st) && Conforms(DbOf(st).catalog)
  }

  /** Start-up without a file leaves the adapter ready, on an empty database with the declared tables. */
  lemma FreshStart(st: StoreState)
    requires st.file == Missing && st.writable
    ensures Initialized(st).1 == Ok(()) && Ready(Initialized(st).0) && Synced(Initialized(st).0)
    ensures DbOf(Initialized(st).0) == EmptyDatabase().(catalog := CreateTables(map[]))
  {
    InitEffect(st);
    InitConforms(map[]);
  }

  /** Start-up on a file whose tables have the declared columns leaves the adapter ready on the file's rows. */
  lemma StartOnConformingFile(st: StoreState)
    requires st.writable && Load(st.file).Db?
    requires forall n: TableName, name: Column :: n in Load(st.file).db.catalog && name in DeclaredNames(n) ==>
      Declares(Load(st.file).db.catalog[n], name)
    ensures Initialized(st).1 == Ok(()) && Ready(Initialized(st).0) && Synced(Initialized(st).0)
    ensures DbOf(Initialized(st).0) == Load(st.file).db.(catalog := CreateTables(Load(st.file).db.catalog))
  {
    InitEffect(st);
    InitConforms(Load(st.file).db.catalog);
  }

  /** The snapshot file holds exactly the image in memory. */
  predicate Synced(st: StoreState)
  {
    st.db.Some? && st.file == Saved(st.db.value.image)
  }

  /** The state once a write statement has run on the connection, leaving `next`: the file is
      written when it can be, and left as it was otherwise. */
  function Applied(st: StoreState, next: Conn): (after: StoreState)
    ensures after.writable == st.writable && after.db == Some(next)
    ensures st.writable ==> Synced(after)
    ensures !st.writable ==> after.file == st.file
  {
    if st.writable then st.(db := Some(next), file := Saved(next.image)) else st.(db := Some(next))
  }

  /** A write that keeps the schema leaves a ready adapter ready. */
  lemma AppliedReady(st: StoreState, next: Conn)
    requires Ready(st) && next.image.Db? && next.image.db.catalog == DbOf(st).catalog
    ensures Ready(Applied(st, next)) && DbOf(Applied(st, next)) == next.image.db
  {
  }

  /** The `insertId` the repository sees after such a write, or the save failure. */
  function Reported(st: StoreState, id: int): Result<int>
  {
    if st.writable then Ok(id) else Err(IoFailure)
  }

  /** A write on a ready adapter: a rejected statement changes nothing; one that ran is applied. */
  lemma WriteOutcome(st: StoreState, s: Statement)
    requires Opened(st) && Prepares(DbOf(st).catalog, s) && !s.IsSelect() && s.AllBindable()
    ensures var w := Write(st.db.value, s);
      InsertId(st, s) == (if w.Err? then (st, Err(w.error)) else (Applied(st, w.value.0), Reported(st, w.value.0.lastInsertRowid)))
  {
    if Write(st.db.value, s).Ok? {
      RunSteps(st, s);
    }
  }

  /** An update or delete on a ready adapter: a rejected statement changes nothing; one that ran is
      applied, and the repository sees whether any row was changed. */
  lemma AffectedOutcome(st: StoreState, s: Statement)
    requires Opened(st) && Prepares(DbOf(st).catalog, s) && !s.IsSelect() && s.AllBindable()
    ensures var w := Write(st.db.value, s);
      AnyAffected(st, s) == (if w.Err? then (st, Err(w.error))
        else (Applied(st, w.value.0), if st.writable then Ok(w.value.0.rowsModified > 0) else Err(IoFailure)))
  {
    if Write(st.db.value, s).Ok? {
      RunSteps(st, s);
    }
  }

  /** A statement is refused before it runs, leaving the state as it was, when there is no handle, when
      the file was not a database, when the schema lacks a table or column the text names, or when a
      parameter is `undefined`. */
  lemma Refused(st: StoreState, s: Statement)
    ensures st.db.None? ==> Run(st, s) == (st, Err(NotInitialized))
    ensures st.db.Some? && st.db.value.image.Unreadable? ==> Run(st, s) == (st, Err(NotADatabase))
    ensures Opened(st) && !Prepares(DbOf(st).catalog, s) ==> Run(st, s) == (st, Err(PrepareError(DbOf(st).catalog, s)))
    ensures Opened(st) && Prepares(DbOf(st).catalog, s) && !s.AllBindable() ==> Run(st, s) == (st, Err(BindError))
    ensures Ready(st) && !s.AllBindable() ==> Run(st, s) == (st, Err(BindError))
  {
    if Ready(st) {
      ConformsPrepares(DbOf(st).catalog, s);
    }
  }

  /** A read on a ready adapter with bindable parameters yields exactly the rows the engine selects. */
  lemma ReadOutcome(st: StoreState, s: Statement)
    requires Opened(st) && Prepares(DbOf(st).catalog, s) && s.IsSelect() && s.AllBindable()
    ensures RowsOf(st, s) == Ok(Select(DbOf(st), s))
  {
    ReadsChangeNothing(st, s);
  }

  /** On a ready adapter the public listing is the join of the public journeys with their owners. */
  lemma PublicRows(st: StoreState)
    requires Ready(st)
    ensures GetAllPublicJourneys(st) == Ok(PublicJoin(DbOf(st).journeys.rows, DbOf(st).users.rows))
  {
    ConformsPrepares(DbOf(st).catalog, SelectPublicJourneys);
    ReadOutcome(st, SelectPublicJourneys);
  }

  // ---------------------------------------------------------------- the rows the inserts store

  /** The journey row `createJourney` stores, its defaults applied. */
  function CreatedRow(data: JourneyInput): Journey
  {
    var s := CreateStatement(data);
    Journey(Bind(s.title), Bind(s.description), Bind(s.isPublic), Bind(s.userId))
  }

  /** The journey row the fork stores: titled after the original, private, owned by `userId`. */
  function ForkedRow(original: Row, userId: JsValue): Journey
    requires Bindable(userId)
  {
    Journey(SqlText("Fork of " + Template(Or(Get(original, Title), Str("Untitled")))),
            Bind(Or(Get(original, Description), Str(""))), SqlInt(0), Bind(userId))
  }

  /** The chapter row a copy stores: the defaults of the fork's chapter loop, `external_link` NULL,
      `is_completed` false, and the new journey's id. */
  function CopiedChapter(chapter: Row, newJourneyId: int): Chapter
  {
    Chapter(Bind(Or(Get(chapter, Title), Str("Untitled Chapter"))), Bind(Or(Get(chapter, Description), Str(""))),
            Bind(Or(Get(chapter, VideoLink), Str(""))), SqlNull, SqlInt(0),
            Bind(Or(Get(chapter, ChapterNo), Num(1))), SqlInt(newJourneyId))
  }

  /** The note row a copy stores: its content (or ''), the copied chapter and the new journey. */
  function CopiedNote(note: Row, newChapterId: JsValue, newJourneyId: int): Note
    requires Truthy(newChapterId)
  {
    Note(Bind(Or(Get(note, Content), Str(""))), Bind(newChapterId), SqlInt(newJourneyId))
  }

  // ---------------------------------------------------------------- one insert each

  /** `createJourney` stores its row under the next id unless `is_public` was given as `null`. */
  lemma CreateOutcome(st: StoreState, data: JourneyInput)
    requires Ready(st)
    ensures var t := Insert(DbOf(st).journeys, CreatedRow(data));
      CreateJourney(st, data) ==
        if data.isPublic == Null then (st, Err(NotNullViolation("journeys.is_public")))
        else (Applied(st, Conn(Db(DbOf(st).(journeys := t)), t.lastId, 1)), Reported(st, t.lastId))
  {
    ConformsPrepares(DbOf(st).catalog, CreateStatement(data));
    WriteOutcome(st, CreateStatement(data));
  }

  /** The fork's journey insert fails only on an `undefined` owner. */
  lemma ForkInsertOutcome(st: StoreState, original: Row, userId: JsValue)
    requires Opened(st) && Prepares(DbOf(st).catalog, ForkStatement(original, userId))
    ensures !Bindable(userId) ==> InsertId(st, ForkStatement(original, userId)) == (st, Err(BindError))
    ensures Bindable(userId) ==>
      var t := Insert(DbOf(st).journeys, ForkedRow(original, userId));
      InsertId(st, ForkStatement(original, userId)) == (Applied(st, Conn(Db(DbOf(st).(journeys := t)), t.lastId, 1)), Reported(st, t.lastId))
  {
    if Bindable(userId) {
      WriteOutcome(st, ForkStatement(original, userId));
    }
  }

  /** A chapter copy never violates NOT NULL: every column has a non-NULL default. */
  lemma ChapterCopyOutcome(st: StoreState, chapter: Row, newJourneyId: int)
    requires Ready(st)
    ensures var t := Insert(DbOf(st).chapters, CopiedChapter(chapter, newJourneyId));
      InsertId(st, ChapterCopy(chapter, Num(newJourneyId))) == (Applied(st, Conn(Db(DbOf(st).(chapters := t)), t.lastId, 1)), Reported(st, t.lastId))
  {
    ConformsPrepares(DbOf(st).catalog, ChapterCopy(chapter, Num(newJourneyId)));
    WriteOutcome(st, ChapterCopy(chapter, Num(newJourneyId)));
  }

  /** A note copy onto a truthy chapter id never violates NOT NULL either. */
  lemma NoteCopyOutcome(st: StoreState, note: Row, newChapterId: JsValue, newJourneyId: int)
    requires Ready(st) && Truthy(newChapterId)
    ensures var t := Insert(DbOf(st).notes, CopiedNote(note, newChapterId, newJourneyId));
      InsertId(st, NoteCopy(note, newChapterId, Num(newJourneyId))) == (Applied(st, Conn(Db(DbOf(st).(notes := t)), t.lastId, 1)), Reported(st, t.lastId))
  {
    ConformsPrepares(DbOf(st).catalog, NoteCopy(note, newChapterId, Num(newJourneyId)));
    WriteOutcome(st, NoteCopy(note, newChapterId, Num(newJourneyId)));
  }
}
