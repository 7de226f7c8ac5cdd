/** The journey repository: creating, reading, updating and deleting journeys
    through the storage adapter, listing the public ones, and forking a journey
    with its chapters and notes into a new journey owned by another user. */
module JourneyModel {
  import opened Values
  import opened Outcomes
  import opened Schema
  import opened Engine
  import opened Storage

  /** The fields `createJourney` and `updateJourney` read from their `data` argument. */
  datatype JourneyInput = JourneyInput(title: JsValue, description: JsValue, isPublic: JsValue, userId: JsValue)

  // ---------------------------------------------------------------- single statements

  /** The insert `createJourney` issues once its defaults are in place. The defaults make every
      parameter bindable and the title never NULL; only an explicit `is_public: null` breaks NOT NULL. */
  function CreateStatement(data: JourneyInput): (s: Statement)
    ensures s.InsertJourney? && s.columns == PublicThenOwner && s.AllBindable()
    ensures s.title == (if Truthy(data.title) then data.title else Str("Untitled Journey"))
    ensures s.description == (if Truthy(data.description) then data.description else Str(""))
    ensures s.isPublic == (if data.isPublic.Undefined? then Bool(true) else data.isPublic)
    ensures s.userId == (if Truthy(data.userId) then data.userId else Null)
    ensures Bind(s.title) != SqlNull
    ensures Bind(s.isPublic) == SqlNull <==> data.isPublic == Null
  {
    InsertJourney(PublicThenOwner, Or(data.title, Str("Untitled Journey")), Or(data.description, Str("")),
                  if data.isPublic != Undefined then data.isPublic else Bool(true), Or(data.userId, Null))
  }

  /** The outcome of a write as the repository sees it: the adapter's `insertId`. */
  function InsertId(st: StoreState, s: Statement): (StoreState, Result<int>)
    requires !s.IsSelect()
  {
    WritesAreSaved(st, s);
    var (after, q) := Run(st, s);
    (after, if q.Ok? then Ok(q.value.insertId) else Err(q.error))
  }

  /** The outcome of a write as `updateJourney` and `deleteJourney` see it: `affectedRows > 0`. */
  function AnyAffected(st: StoreState, s: Statement): (StoreState, Result<bool>)
    requires !s.IsSelect()
  {
    WritesAreSaved(st, s);
    var (after, q) := Run(st, s);
    (after, if q.Ok? then Ok(q.value.affectedRows > 0) else Err(q.error))
  }

  /** The rows of a read; the state is left as it was. */
  function RowsOf(st: StoreState, s: Statement): Result<seq<Row>>
    requires s.IsSelect()
  {
    ReadsChangeNothing(st, s);
    var q := Run(st, s).1;
    if q.Ok? then Ok(q.value.rows) else Err(q.error)
  }

  /** `createJourney(data)`: the new journey's id. */
  function CreateJourney(st: StoreState, data: JourneyInput): (r: (StoreState, Result<int>))
    ensures st.db.None? ==> r == (st, Err(NotInitialized))
    ensures r.1.Err? && r.1.error != IoFailure ==> r.0 == st
    ensures r.0.file != st.file ==> r.1.Ok? && r.0.db.Some? && r.0.file == Saved(r.0.db.value.image)
  {
    InsertId(st, CreateStatement(data))
  }

  /** `getAllJourneys(userId)` */
  function GetAllJourneys(st: StoreState, userId: JsValue): (r: Result<seq<Row>>)
    ensures st.db.None? ==> r == Err(NotInitialized)
    ensures r.Ok? && st.db.Some? && st.db.value.image.Db? ==> |r.value| <= |st.db.value.image.db.journeys.rows|
  {
    RowsOf(st, SelectJourneysByOwner(userId))
  }

  /** `getJourneyById(id)`: the first matching row, or `undefined` (None) when there is none. */
  function GetJourneyById(st: StoreState, id: JsValue): (r: Result<Option<Row>>)
    ensures st.db.None? ==> r == Err(NotInitialized)
  {
    match RowsOf(st, SelectJourneyById(id))
    case Err(e) => Err(e)
    case Ok(rows) => Ok(if rows == [] then None else Some(rows[0]))
  }

  /** `updateJourney(id, data)`: whether a row with this id and owner was changed. */
  function UpdateJourney(st: StoreState, id: JsValue, data: JourneyInput): (r: (StoreState, Result<bool>))
    ensures st.db.None? ==> r == (st, Err(NotInitialized))
    ensures r.1.Err? && r.1.error != IoFailure ==> r.0 == st
    ensures r.0.file != st.file ==> r.1.Ok? && r.0.db.Some? && r.0.file == Saved(r.0.db.value.image)
  {
    AnyAffected(st, UpdateOwnedJourney(data.title, data.description, data.isPublic, id, data.userId))
  }

  /** `deleteJourney(id, userId)`: whether a row with this id and owner was removed. */
  function DeleteJourney(st: StoreState, id: JsValue, userId: JsValue): (r: (StoreState, Result<bool>))
    ensures st.db.None? ==> r == (st, Err(NotInitialized))
    ensures r.1.Err? && r.1.error != IoFailure ==> r.0 == st
    ensures r.0.file != st.file ==> r.1.Ok? && r.0.db.Some? && r.0.file == Saved(r.0.db.value.image)
  {
    AnyAffected(st, DeleteOwnedJourney(id, userId))
  }

  /** `getAllPublicJourneys()`: any failure is replaced by "Error fetching public journeys". */
  function GetAllPublicJourneys(st: StoreState): (r: Result<seq<Row>>)
    ensures r.Err? ==> r.error == PublicFetchFailed
  {
    match RowsOf(st, SelectPublicJourneys)
    case Err(_) => Err(PublicFetchFailed)
    case Ok(rows) => Ok(rows)
  }

  // ---------------------------------------------------------------- forking

  /** `chapterIdMap`: source chapter id to the id of its copy. */
  type ChapterIdMap = map<JsValue, JsValue>

  /** `chapterIdMap[key]`: `undefined` for a key never recorded. */
  function Lookup(m: ChapterIdMap, key: JsValue): JsValue
  {
    if key in m then m[key] else Undefined
  }

  /** The insert that creates the forked journey: private, owned by `userId`. */
  function ForkStatement(original: Row, userId: JsValue): Statement
  {
    InsertJourney(OwnerThenPublic,
      Str("Fork of " + Template(Or(Get(original, Title), Str("Untitled")))),
      Or(Get(original, Description), Str("")), Num(0), userId)
  }

  /** The insert that copies one chapter into the new journey. */
  function ChapterCopy(chapter: Row, newJourneyId: JsValue): Statement
  {
    InsertChapter(Or(Get(chapter, Title), Str("Untitled Chapter")), Or(Get(chapter, Description), Str("")),
                  Or(Get(chapter, VideoLink), Str("")), Or(Get(chapter, ChapterNo), Num(1)), newJourneyId)
  }

  /** The insert that copies one note onto the copy of its chapter. */
  function NoteCopy(note: Row, newChapterId: JsValue, newJourneyId: JsValue): Statement
  {
    InsertNote(Or(Get(note, Content), Str("")), newChapterId, newJourneyId)
  }

  /** The chapter loop from the current chapter on: each chapter is inserted and its new id recorded;
      the first failure ends the loop. */
  function CopyChapters(st: StoreState, m: ChapterIdMap, chapters: seq<Row>, newJourneyId: JsValue)
    : (r: (StoreState, Result<ChapterIdMap>))
    ensures r.0.writable == st.writable
    ensures st.db.None? ==> r.0 == st && (chapters == [] || r.1 == Err(NotInitialized))
    decreases |chapters|
  {
    if chapters == [] then (st, Ok(m))
    else
      var (after, q) := InsertId(st, ChapterCopy(chapters[0], newJourneyId));
      if q.Err? then (after, Err(q.error))
      else CopyChapters(after, m[Get(chapters[0], Id) := Num(q.value)], chapters[1..], newJourneyId)
  }

  /** The note loop from the current note on: a note whose chapter was copied is inserted, any other
      is skipped; the first failure ends the loop. */
  function CopyNotes(st: StoreState, m: ChapterIdMap, notes: seq<Row>, newJourneyId: JsValue): (r: (StoreState, Result<()>))
    ensures r.0.writable == st.writable
    ensures (forall k :: 0 <= k < |notes| ==> !Truthy(Lookup(m, Get(notes[k], ChapterId)))) ==> r == (st, Ok(()))
    decreases |notes|
  {
    if notes == [] then (st, Ok(()))
    else
      var newChapterId := Lookup(m, Get(notes[0], ChapterId));
      if !Truthy(newChapterId) then CopyNotes(st, m, notes[1..], newJourneyId)
      else
        var (after, q) := InsertId(st, NoteCopy(notes[0], newChapterId, newJourneyId));
        if q.Err? then (after, Err(q.error))
        else CopyNotes(after, m, notes[1..], newJourneyId)
  }

  /** `forkJourney(journeyId, userId)`: the new journey's id. Nothing done before a failure is undone. */
  function Fork(st: StoreState, journeyId: JsValue, userId: JsValue): (r: (StoreState, Result<int>))
    ensures st.db.None? ==> r == (st, Err(NotInitialized))
  {
    match RowsOf(st, SelectJourneyById(journeyId))
    case Err(e) => (st, Err(e))
    case Ok(journey) =>
      if journey == [] then (st, Err(JourneyNotFound))
      else ForkCreate(st, journey[0], journeyId, userId)
  }

  /** Step 2 of the fork: the new journey, then its contents. */
  function ForkCreate(st: StoreState, original: Row, journeyId: JsValue, userId: JsValue): (StoreState, Result<int>)
  {
    var (st1, q) := InsertId(st, ForkStatement(original, userId));
    if q.Err? then (st1, Err(q.error))
    else ForkContents(st1, journeyId, q.value)
  }

  /** Steps 3 and 4 of the fork, once the new journey exists. */
  function ForkContents(st: StoreState, journeyId: JsValue, newJourneyId: int): (StoreState, Result<int>)
  {
    match RowsOf(st, SelectChaptersOfJourney(journeyId))
    case Err(e) => (st, Err(e))
    case Ok(chapters) =>
      var (st2, m) := CopyChapters(st, map[], chapters, Num(newJourneyId));
      if m.Err? then (st2, Err(m.error))
      else
        match RowsOf(st2, SelectNotesOfJourney(journeyId))
        case Err(e) => (st2, Err(e))
        case Ok(notes) =>
          var (st3, n) := CopyNotes(st2, m.value, notes, Num(newJourneyId));
          (st3, if n.Err? then Err(n.error) else Ok(newJourneyId))
  }

  // ---------------------------------------------------------------- the fork, step by step

  /** A read through the adapter object, with its rows. */
  method ReadRows(store: Store, s: Statement) returns (r: Result<seq<Row>>)
    requires s.IsSelect()
    modifies store
    ensures store.State() == old(store.State())
    ensures r == RowsOf(old(store.State()), s)
  {
    ReadsChangeNothing(store.State(), s);
    var q := store.Query(s);
    r := if q.Ok? then Ok(q.value.rows) else Err(q.error);
  }

  /** A write through the adapter object, with its insert id. */
  method WriteRow(store: Store, s: Statement) returns (r: Result<int>)
    requires !s.IsSelect()
    modifies store
    ensures (store.State(), r) == InsertId(old(store.State()), s)
  {
    WritesAreSaved(store.State(), s);
    var q := store.Query(s);
    r := if q.Ok? then Ok(q.value.insertId) else Err(q.error);
  }

  /** `for (const chapter of chapters)` */
  method CopyChapterRows(store: Store, chapters: seq<Row>, newJourneyId: JsValue) returns (r: Result<ChapterIdMap>)
    modifies store
    ensures (store.State(), r) == CopyChapters(old(store.State()), map[], chapters, newJourneyId)
  {
    ghost var goal := CopyChapters(store.State(), map[], chapters, newJourneyId);
    var chapterIdMap: ChapterIdMap := map[];
    var rest := chapters;
    while rest != []
      invariant CopyChapters(store.State(), chapterIdMap, rest, newJourneyId) == goal
      decreases |rest|
    {
      var next := CopyChapterRow(store, chapterIdMap, rest, newJourneyId);
      if next.Err? {
        return Err(next.error);
      }
      chapterIdMap := next.value;
      rest := rest[1..];
    }
    return Ok(chapterIdMap);
  }

  /** One pass of the chapter loop: insert the copy of the current chapter `rest[0]` and record its
      id under the source chapter's id. */
  method CopyChapterRow(store: Store, chapterIdMap: ChapterIdMap, rest: seq<Row>, newJourneyId: JsValue)
    returns (r: Result<ChapterIdMap>)
    requires rest != []
    modifies store
    ensures r.Ok? ==>
      CopyChapters(store.State(), r.value, rest[1..], newJourneyId)
        == CopyChapters(old(store.State()), chapterIdMap, rest, newJourneyId)
    ensures r.Err? ==>
      (store.State(), Err(r.error)) == CopyChapters(old(store.State()), chapterIdMap, rest, newJourneyId)
  {
    var newChapterId := WriteRow(store, ChapterCopy(rest[0], newJourneyId));
    if newChapterId.Err? {
      return Err(newChapterId.error);
    }
    return Ok(chapterIdMap[Get(rest[0], Id) := Num(newChapterId.value)]);
  }

  /** `for (const note of notes)` */
  method CopyNoteRows(store: Store, chapterIdMap: ChapterIdMap, notes: seq<Row>, newJourneyId: JsValue)
    returns (r: Result<()>)
    modifies store
    ensures (store.State(), r) == CopyNotes(old(store.State()), chapterIdMap, notes, newJourneyId)
  {
    ghost var goal := CopyNotes(store.State(), chapterIdMap, notes, newJourneyId);
    var rest := notes;
    while rest != []
      invariant CopyNotes(store.State(), chapterIdMap, rest, newJourneyId) == goal
      decreases |rest|
    {
      var copied := CopyNoteRow(store, chapterIdMap, rest, newJourneyId);
      if copied.Err? {
        return Err(copied.error);
      }
      rest := rest[1..];
    }
    return Ok(());
  }

  /** One pass of the note loop: the current note `rest[0]` is inserted onto the copy of its chapter,
      if there is one. */
  method CopyNoteRow(store: Store, chapterIdMap: ChapterIdMap, rest: seq<Row>, newJourneyId: JsValue)
    returns (r: Result<()>)
    requires rest != []
    modifies store
    ensures r.Ok? ==>
      CopyNotes(store.State(), chapterIdMap, rest[1..], newJourneyId)
        == CopyNotes(old(store.State()), chapterIdMap, rest, newJourneyId)
    ensures r.Err? ==>
      (store.State(), Err(r.error)) == CopyNotes(old(store.State()), chapterIdMap, rest, newJourneyId)
  {
    var newChapterId := Lookup(chapterIdMap, Get(rest[0], ChapterId));
    if Truthy(newChapterId) {
      var w := WriteRow(store, NoteCopy(rest[0], newChapterId, newJourneyId));
      if w.Err? {
        return Err(w.error);
      }
    }
    return Ok(());
  }

  /** `forkJourney(journeyId, userId)` */
  method ForkJourney(store: Store, journeyId: JsValue, userId: JsValue) returns (r: Result<int>)
    modifies store
    ensures (store.State(), r) == Fork(old(store.State()), journeyId, userId)
  {
    var journey := ReadRows(store, SelectJourneyById(journeyId));
    if journey.Err? {
      return Err(journey.error);
    }
    if |journey.value| == 0 {
      return Err(JourneyNotFound);
    }
    r := ForkFrom(store, journey.value[0], journeyId, userId);
  }

  /** The fork once the source journey has been read. */
  method ForkFrom(store: Store, original: Row, journeyId: JsValue, userId: JsValue) returns (r: Result<int>)
    modifies store
    ensures (store.State(), r) == ForkCreate(old(store.State()), original, journeyId, userId)
  {
    var newJourneyId := WriteRow(store, ForkStatement(original, userId));
    if newJourneyId.Err? {
      return Err(newJourneyId.error);
    }
    r := ForkRest(store, journeyId, newJourneyId.value);
  }

  /** Steps 3 and 4: the chapters, then the notes. */
  method ForkRest(store: Store, journeyId: JsValue, newJourneyId: int) returns (r: Result<int>)
    modifies store
    ensures (store.State(), r) == ForkContents(old(store.State()), journeyId, newJourneyId)
  {
    var chapters := ReadRows(store, SelectChaptersOfJourney(journeyId));
    if chapters.Err? {
      return Err(chapters.error);
    }
    var chapterIdMap := CopyChapterRows(store, chapters.value, Num(newJourneyId));
    if chapterIdMap.Err? {
      return Err(chapterIdMap.error);
    }
    var notes := ReadRows(store, SelectNotesOfJourney(journeyId));
    if notes.Err? {
      return Err(notes.error);
    }
    var copied := CopyNoteRows(store, chapterIdMap.value, notes.value, Num(newJourneyId));
    if copied.Err? {
      return Err(copied.error);
    }
    return Ok(newJourneyId);
  }
}
