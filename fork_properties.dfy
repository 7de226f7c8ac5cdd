/** What `forkJourney` does to the database: a reference description of the
    rows a successful fork adds, the proof that the fork produces exactly them,
    what that description implies, and the failures (early ones change nothing;
    a failed save keeps the new journey row in memory, since nothing is rolled back). */
module ForkProperties {
  import opened Values
  import opened Outcomes
  import opened Schema
  import opened Engine
  import opened Storage
  import opened JourneyModel
  import opened Effects

  // ---------------------------------------------------------------- reference description

  /** The copies the chapter loop adds, numbered on from `base`. */
  function ChapterCopies(chapters: seq<Row>, newJourneyId: int, base: int): (r: seq<Entry<Chapter>>)
    ensures |r| == |chapters|
  {
    seq(|chapters|, k requires 0 <= k < |chapters| => Entry(base + 1 + k, CopiedChapter(chapters[k], newJourneyId)))
  }

  /** The id map the chapter loop builds: each source id to the id of its copy, the later entry winning. */
  function IdMap(m: ChapterIdMap, chapters: seq<Row>, base: int): ChapterIdMap
    decreases |chapters|
  {
    if chapters == [] then m else IdMap(m[Get(chapters[0], Id) := Num(base + 1)], chapters[1..], base + 1)
  }

  /** The notes whose chapter has a copy, as the note loop tests it. */
  function HasCopy(m: ChapterIdMap): Row -> bool
  {
    (note: Row) => Truthy(Lookup(m, Get(note, ChapterId)))
  }

  /** The copies the note loop adds: the notes that pass the test, in order, numbered on from `base`. */
  function NoteCopies(notes: seq<Row>, m: ChapterIdMap, newJourneyId: int, base: int): (r: seq<Entry<Note>>)
    ensures |r| == |Filter(notes, HasCopy(m))|
  {
    var kept := Filter(notes, HasCopy(m));
    seq(|kept|, k requires 0 <= k < |kept| =>
      Entry(base + 1 + k, CopiedNote(kept[k], Lookup(m, Get(kept[k], ChapterId)), newJourneyId)))
  }

  lemma ChapterCopiesCons(chapters: seq<Row>, newJourneyId: int, base: int)
    requires chapters != []
    ensures ChapterCopies(chapters, newJourneyId, base)
         == [Entry(base + 1, CopiedChapter(chapters[0], newJourneyId))] + ChapterCopies(chapters[1..], newJourneyId, base + 1)
  {
    var r := ChapterCopies(chapters, newJourneyId, base);
    var rest := ChapterCopies(chapters[1..], newJourneyId, base + 1);
    assert forall k :: 1 <= k < |r| ==> r[k] == rest[k - 1];
  }

  lemma NoteCopiesCons(notes: seq<Row>, m: ChapterIdMap, newJourneyId: int, base: int)
    requires notes != []
    ensures !HasCopy(m)(notes[0]) ==> NoteCopies(notes, m, newJourneyId, base) == NoteCopies(notes[1..], m, newJourneyId, base)
    ensures HasCopy(m)(notes[0]) ==>
      NoteCopies(notes, m, newJourneyId, base)
        == [Entry(base + 1, CopiedNote(notes[0], Lookup(m, Get(notes[0], ChapterId)), newJourneyId))]
           + NoteCopies(notes[1..], m, newJourneyId, base + 1)
  {
    var kept, later := Filter(notes, HasCopy(m)), Filter(notes[1..], HasCopy(m));
    var r, rest := NoteCopies(notes, m, newJourneyId, base), NoteCopies(notes[1..], m, newJourneyId, base + 1);
    if HasCopy(m)(notes[0]) {
      assert kept == [notes[0]] + later;
      assert forall k :: 1 <= k < |r| ==> r[k] == rest[k - 1];
    } else {
      assert kept == later;
    }
  }

  // ---------------------------------------------------------------- the loops, in closed form

  /** Appending rows numbered on from a table's counter keeps it well formed. */
  lemma AppendFresh<T>(t: Table<T>, added: seq<Entry<T>>)
    requires WellFormed(t)
    requires forall k :: 0 <= k < |added| ==> added[k].id == t.lastId + 1 + k
    ensures WellFormed(Table(t.rows + added, t.lastId + |added|))
  {
    var rows := t.rows + added;
    forall i, j | 0 <= i < j < |rows| ensures rows[i].id < rows[j].id {
      if j >= |t.rows| {
        assert rows[j] == added[j - |t.rows|];
        if i >= |t.rows| {
          assert rows[i] == added[i - |t.rows|];
        } else {
          assert rows[i] == t.rows[i];
        }
      } else {
        assert rows[i] == t.rows[i] && rows[j] == t.rows[j];
      }
    }
    forall i | 0 <= i < |rows| ensures rows[i].id <= t.lastId + |added| {
      if i >= |t.rows| {
        assert rows[i] == added[i - |t.rows|];
      } else {
        assert rows[i] == t.rows[i];
      }
    }
  }

  /** A table with `added` appended under the ids that follow its counter. */
  function Appended<T>(t: Table<T>, added: seq<Entry<T>>): Table<T>
  {
    Table(t.rows + added, t.lastId + |added|)
  }

  /** The chapters table once `chapters` are copied into the journey `newJourneyId`. */
  function WithChapterCopies(d: SoundDatabase, chapters: seq<Row>, newJourneyId: int): SoundDatabase
  {
    var copies := ChapterCopies(chapters, newJourneyId, d.chapters.lastId);
    AppendFresh(d.chapters, copies);
    d.(chapters := Appended(d.chapters, copies))
  }

  /** The notes table once the notes with a copied chapter are copied into the journey `newJourneyId`. */
  function WithNoteCopies(d: SoundDatabase, notes: seq<Row>, m: ChapterIdMap, newJourneyId: int): SoundDatabase
  {
    var copies := NoteCopies(notes, m, newJourneyId, d.notes.lastId);
    AppendFresh(d.notes, copies);
    d.(notes := Appended(d.notes, copies))
  }

  lemma WithChapterCopiesKeeps(d: SoundDatabase, chapters: seq<Row>, newJourneyId: int)
    ensures var r := WithChapterCopies(d, chapters, newJourneyId);
      r == d.(chapters := r.chapters) && r.chapters.lastId == d.chapters.lastId + |chapters|
    ensures chapters == [] ==> WithChapterCopies(d, chapters, newJourneyId) == d
  {
    if chapters == [] {
      assert Appended(d.chapters, ChapterCopies(chapters, newJourneyId, d.chapters.lastId)) == d.chapters;
    }
  }

  lemma WithNoteCopiesKeeps(d: SoundDatabase, notes: seq<Row>, m: ChapterIdMap, newJourneyId: int)
    ensures var r := WithNoteCopies(d, notes, m, newJourneyId);
      r == d.(notes := r.notes) && r.notes.lastId == d.notes.lastId + |NoteCopies(notes, m, newJourneyId, d.notes.lastId)|
    ensures NoteCopies(notes, m, newJourneyId, d.notes.lastId) == [] ==> WithNoteCopies(d, notes, m, newJourneyId) == d
  {
    if NoteCopies(notes, m, newJourneyId, d.notes.lastId) == [] {
      assert Appended(d.notes, NoteCopies(notes, m, newJourneyId, d.notes.lastId)) == d.notes;
    }
  }

  /** What the chapter loop leaves on a ready adapter whose file can be written: every copy stored,
      the last one's id as `last_insert_rowid`, the file saved, and the id map filled in. */
  function ChaptersCopied(st: StoreState, m: ChapterIdMap, chapters: seq<Row>, newJourneyId: int): (StoreState, Result<ChapterIdMap>)
    requires Ready(st)
  {
    if chapters == [] then (st, Ok(m))
    else
      var d := WithChapterCopies(DbOf(st), chapters, newJourneyId);
      (Applied(st, Conn(Db(d), d.chapters.lastId, 1)), Ok(IdMap(m, chapters, DbOf(st).chapters.lastId)))
  }

  /** What the note loop leaves on a ready adapter whose file can be written. */
  function NotesCopied(st: StoreState, m: ChapterIdMap, notes: seq<Row>, newJourneyId: int): (StoreState, Result<()>)
    requires Ready(st)
  {
    if NoteCopies(notes, m, newJourneyId, DbOf(st).notes.lastId) == [] then (st, Ok(()))
    else
      var d := WithNoteCopies(DbOf(st), notes, m, newJourneyId);
      (Applied(st, Conn(Db(d), d.notes.lastId, 1)), Ok(()))
  }

  /** Appending one row, then more, is appending them all at once. */
  lemma AppendCons<T>(t: Table<T>, r: T, rest: seq<Entry<T>>)
    ensures Appended(Insert(t, r), rest) == Appended(t, [Entry(t.lastId + 1, r)] + rest)
  {
    assert t.rows + [Entry(t.lastId + 1, r)] + rest == t.rows + ([Entry(t.lastId + 1, r)] + rest);
  }

  lemma ChaptersCopiedState(st: StoreState, m: ChapterIdMap, chapters: seq<Row>, newJourneyId: int)
    requires Ready(st)
    ensures var (after, r) := ChaptersCopied(st, m, chapters, newJourneyId);
      && Ready(after) && after.writable == st.writable
      && DbOf(after) == WithChapterCopies(DbOf(st), chapters, newJourneyId)
      && r == Ok(IdMap(m, chapters, DbOf(st).chapters.lastId))
      && (st.writable && Synced(st) ==> Synced(after))
  {
    WithChapterCopiesKeeps(DbOf(st), chapters, newJourneyId);
  }

  lemma NotesCopiedState(st: StoreState, m: ChapterIdMap, notes: seq<Row>, newJourneyId: int)
    requires Ready(st)
    ensures var (after, r) := NotesCopied(st, m, notes, newJourneyId);
      && Ready(after) && after.writable == st.writable
      && DbOf(after) == WithNoteCopies(DbOf(st), notes, m, newJourneyId)
      && r == Ok(())
      && (st.writable && Synced(st) ==> Synced(after))
  {
    WithNoteCopiesKeeps(DbOf(st), notes, m, newJourneyId);
  }

  lemma ChapterTableCons(t: Table<Chapter>, chapters: seq<Row>, newJourneyId: int)
    requires chapters != []
    ensures var t1 := Insert(t, CopiedChapter(chapters[0], newJourneyId));
      Appended(t1, ChapterCopies(chapters[1..], newJourneyId, t1.lastId)) == Appended(t, ChapterCopies(chapters, newJourneyId, t.lastId))
  {
    ChapterCopiesCons(chapters, newJourneyId, t.lastId);
    AppendCons(t, CopiedChapter(chapters[0], newJourneyId), ChapterCopies(chapters[1..], newJourneyId, t.lastId + 1));
  }

  lemma NoteTableCons(t: Table<Note>, notes: seq<Row>, m: ChapterIdMap, newJourneyId: int)
    requires notes != [] && HasCopy(m)(notes[0])
    ensures var t1 := Insert(t, CopiedNote(notes[0], Lookup(m, Get(notes[0], ChapterId)), newJourneyId));
      Appended(t1, NoteCopies(notes[1..], m, newJourneyId, t1.lastId)) == Appended(t, NoteCopies(notes, m, newJourneyId, t.lastId))
  {
    NoteCopiesCons(notes, m, newJourneyId, t.lastId);
    AppendCons(t, CopiedNote(notes[0], Lookup(m, Get(notes[0], ChapterId)), newJourneyId), NoteCopies(notes[1..], m, newJourneyId, t.lastId + 1));
  }

  /** Copying the first chapter, then the rest, is copying them all. */
  lemma ChaptersCopiedCons(st: StoreState, m: ChapterIdMap, chapters: seq<Row>, newJourneyId: int)
    requires Ready(st) && st.writable && chapters != []
    ensures var d := DbOf(st);
      var t := Insert(d.chapters, CopiedChapter(chapters[0], newJourneyId));
      var st1 := Applied(st, Conn(Db(d.(chapters := t)), t.lastId, 1));
      ChaptersCopied(st1, m[Get(chapters[0], Id) := Num(t.lastId)], chapters[1..], newJourneyId)
        == ChaptersCopied(st, m, chapters, newJourneyId)
  {
    var d := DbOf(st);
    var t := Insert(d.chapters, CopiedChapter(chapters[0], newJourneyId));
    ChapterTableCons(d.chapters, chapters, newJourneyId);
    if |chapters| == 1 {
      assert Appended(t, ChapterCopies(chapters[1..], newJourneyId, t.lastId)) == t;
      assert IdMap(m, chapters, d.chapters.lastId) == m[Get(chapters[0], Id) := Num(t.lastId)];
    }
  }

  /** A note whose chapter was not copied is skipped. */
  lemma NotesCopiedSkip(st: StoreState, m: ChapterIdMap, notes: seq<Row>, newJourneyId: int)
    requires Ready(st) && notes != [] && !HasCopy(m)(notes[0])
    ensures NotesCopied(st, m, notes[1..], newJourneyId) == NotesCopied(st, m, notes, newJourneyId)
  {
    NoteCopiesCons(notes, m, newJourneyId, DbOf(st).notes.lastId);
  }

  /** Copying the first note, then the rest, is copying them all. */
  lemma NotesCopiedCons(st: StoreState, m: ChapterIdMap, notes: seq<Row>, newJourneyId: int)
    requires Ready(st) && st.writable && notes != [] && HasCopy(m)(notes[0])
    ensures var d := DbOf(st);
      var t := Insert(d.notes, CopiedNote(notes[0], Lookup(m, Get(notes[0], ChapterId)), newJourneyId));
      NotesCopied(Applied(st, Conn(Db(d.(notes := t)), t.lastId, 1)), m, notes[1..], newJourneyId)
        == NotesCopied(st, m, notes, newJourneyId)
  {
    var d := DbOf(st);
    var t := Insert(d.notes, CopiedNote(notes[0], Lookup(m, Get(notes[0], ChapterId)), newJourneyId));
    NoteTableCons(d.notes, notes, m, newJourneyId);
    NoteCopiesCons(notes, m, newJourneyId, d.notes.lastId);
    if NoteCopies(notes[1..], m, newJourneyId, t.lastId) == [] {
      assert Appended(t, NoteCopies(notes[1..], m, newJourneyId, t.lastId)) == t;
    }
  }

  /** On a ready adapter whose file can be written, the chapter loop always succeeds, with the
      outcome `ChaptersCopied` describes. */
  lemma {:induction false} CopyChaptersEffect(st: StoreState, m: ChapterIdMap, chapters: seq<Row>, newJourneyId: int)
    requires Ready(st) && st.writable
    ensures CopyChapters(st, m, chapters, Num(newJourneyId)) == ChaptersCopied(st, m, chapters, newJourneyId)
    decreases |chapters|
  {
    if chapters != [] {
      var d := DbOf(st);
      var t := Insert(d.chapters, CopiedChapter(chapters[0], newJourneyId));
      ChapterCopyOutcome(st, chapters[0], newJourneyId);
      var st1 := Applied(st, Conn(Db(d.(chapters := t)), t.lastId, 1));
      CopyChaptersEffect(st1, m[Get(chapters[0], Id) := Num(t.lastId)], chapters[1..], newJourneyId);
      ChaptersCopiedCons(st, m, chapters, newJourneyId);
    }
  }

  /** On a ready adapter whose file can be written, the note loop always succeeds, with the
      outcome `NotesCopied` describes. */
  lemma {:induction false} CopyNotesEffect(st: StoreState, m: ChapterIdMap, notes: seq<Row>, newJourneyId: int)
    requires Ready(st) && st.writable
    ensures CopyNotes(st, m, notes, Num(newJourneyId)) == NotesCopied(st, m, notes, newJourneyId)
    decreases |notes|
  {
    if notes != [] {
      var newChapterId := Lookup(m, Get(notes[0], ChapterId));
      if Truthy(newChapterId) {
        NotesCopiedCons(st, m, notes, newJourneyId);
        var d := DbOf(st);
        var t := Insert(d.notes, CopiedNote(notes[0], newChapterId, newJourneyId));
        NoteCopyOutcome(st, notes[0], newChapterId, newJourneyId);
        CopyNotesEffect(Applied(st, Conn(Db(d.(notes := t)), t.lastId, 1)), m, notes[1..], newJourneyId);
      } else {
        NotesCopiedSkip(st, m, notes, newJourneyId);
        CopyNotesEffect(st, m, notes[1..], newJourneyId);
      }
    }
  }

  // ---------------------------------------------------------------- the whole fork

  /** The source journey's chapters, as the fork reads them. */
  function ChaptersOf(d: Database, journeyId: JsValue): seq<Row>
    requires Bindable(journeyId)
  {
    Objects(Filter(d.chapters.rows, ChapterOf(Bind(journeyId))), ChapterObject)
  }

  /** The source journey's notes, as the fork reads them. */
  function NotesOf(d: Database, journeyId: JsValue): seq<Row>
    requires Bindable(journeyId)
  {
    Objects(Filter(d.notes.rows, NoteOf(Bind(journeyId))), NoteObject)
  }

  /** The database once `chapters`, and those of `notes` whose chapter was among them, are copied
      into the journey `newJourneyId`. */
  function ContentsCopied(d: SoundDatabase, chapters: seq<Row>, notes: seq<Row>, newJourneyId: int): SoundDatabase
  {
    WithNoteCopies(WithChapterCopies(d, chapters, newJourneyId), notes, IdMap(map[], chapters, d.chapters.lastId), newJourneyId)
  }

  /** Steps 3 and 4 of the fork on a ready adapter whose file can be written: both loops run to the
      end, the file ends up saved, and the new journey's id is returned. */
  lemma ForkContentsEffect(st: StoreState, journeyId: JsValue, newJourneyId: int)
    requires Ready(st) && st.writable && Synced(st) && Bindable(journeyId)
    ensures var (after, r) := ForkContents(st, journeyId, newJourneyId);
      && r == Ok(newJourneyId) && Ready(after) && Synced(after) && after.writable
      && DbOf(after) == ContentsCopied(DbOf(st), ChaptersOf(DbOf(st), journeyId), NotesOf(DbOf(st), journeyId), newJourneyId)
  {
    var d := DbOf(st);
    var chapters := ChaptersOf(d, journeyId);
    ConformsPrepares(DbOf(st).catalog, SelectChaptersOfJourney(journeyId));
    ReadOutcome(st, SelectChaptersOfJourney(journeyId));
    CopyChaptersEffect(st, map[], chapters, newJourneyId);
    ChaptersCopiedState(st, map[], chapters, newJourneyId);
    var st2 := ChaptersCopied(st, map[], chapters, newJourneyId).0;
    WithChapterCopiesKeeps(d, chapters, newJourneyId);
    ConformsPrepares(DbOf(st2).catalog, SelectNotesOfJourney(journeyId));
    ReadOutcome(st2, SelectNotesOfJourney(journeyId));
    var m := IdMap(map[], chapters, d.chapters.lastId);
    CopyNotesEffect(st2, m, NotesOf(d, journeyId), newJourneyId);
    NotesCopiedState(st2, m, NotesOf(d, journeyId), newJourneyId);
  }

  /** The journey rows `SELECT * FROM journeys WHERE id = ?` yields. */
  function JourneysWithId(d: Database, journeyId: JsValue): seq<Row>
    requires Bindable(journeyId)
  {
    Objects(Filter(d.journeys.rows, KeyIs(Bind(journeyId))), JourneyObject)
  }

  /** The journey row a fork of `original` by `userId` adds, under the next journey id. */
  function WithForkedJourney(d: SoundDatabase, original: Row, userId: JsValue): (r: SoundDatabase)
    requires Bindable(userId)
    ensures r == d.(journeys := r.journeys)
    ensures r.journeys.rows == d.journeys.rows + [Entry(d.journeys.lastId + 1, ForkedRow(original, userId))]
    ensures r.journeys.lastId == d.journeys.lastId + 1
  {
    d.(journeys := Insert(d.journeys, ForkedRow(original, userId)))
  }

  /** Reference description of a successful fork of the journey `original` (found under `journeyId`)
      by `userId`: one new private journey under the next id, then copies of the source's chapters
      and of the notes whose chapter was copied. */
  function ForkedDatabase(d: SoundDatabase, original: Row, journeyId: JsValue, userId: JsValue): SoundDatabase
    requires Bindable(journeyId) && Bindable(userId)
  {
    ContentsCopied(WithForkedJourney(d, original, userId), ChaptersOf(d, journeyId), NotesOf(d, journeyId), d.journeys.lastId + 1)
  }

  /** The id map a fork of `journeyId` builds. */
  function ForkIdMap(d: Database, journeyId: JsValue): ChapterIdMap
    requires Bindable(journeyId)
  {
    IdMap(map[], ChaptersOf(d, journeyId), d.chapters.lastId)
  }

  /** Step 2 and after, once the source row is known. */
  lemma ForkCreateEffect(st: StoreState, original: Row, journeyId: JsValue, userId: JsValue)
    requires Ready(st) && st.writable && Bindable(journeyId) && Bindable(userId)
    ensures var (after, r) := ForkCreate(st, original, journeyId, userId);
      var d1 := WithForkedJourney(DbOf(st), original, userId);
      && r == Ok(d1.journeys.lastId) && Ready(after) && Synced(after) && after.writable
      && DbOf(after) == ContentsCopied(d1, ChaptersOf(DbOf(st), journeyId), NotesOf(DbOf(st), journeyId), d1.journeys.lastId)
  {
    ConformsPrepares(DbOf(st).catalog, ForkStatement(original, userId));
    ForkInsertOutcome(st, original, userId);
    var d1 := WithForkedJourney(DbOf(st), original, userId);
    var st1 := Applied(st, Conn(Db(d1), d1.journeys.lastId, 1));
    ForkContentsEffect(st1, journeyId, d1.journeys.lastId);
  }

  /** `forkJourney` on a ready adapter whose file can be written, for a journey that exists and an
      owner that can be bound: it returns the next journey id, and the database, saved to the file,
      is exactly the reference description. */
  lemma ForkSucceeds(st: StoreState, journeyId: JsValue, userId: JsValue)
    requires Ready(st) && st.writable && Bindable(journeyId) && Bindable(userId)
    requires JourneysWithId(DbOf(st), journeyId) != []
    ensures var (after, r) := Fork(st, journeyId, userId);
      && r == Ok(DbOf(st).journeys.lastId + 1) && Ready(after) && Synced(after)
      && DbOf(after) == ForkedDatabase(DbOf(st), JourneysWithId(DbOf(st), journeyId)[0], journeyId, userId)
  {
    var original := JourneysWithId(DbOf(st), journeyId)[0];
    ConformsPrepares(DbOf(st).catalog, SelectJourneyById(journeyId));
    ForkStarts(st, journeyId, userId);
    ForkCreateEffect(st, original, journeyId, userId);
  }

  /** Step 1 of the fork found the source row: what follows is step 2 on it. */
  lemma ForkStarts(st: StoreState, journeyId: JsValue, userId: JsValue)
    requires Opened(st) && Prepares(DbOf(st).catalog, SelectJourneyById(journeyId))
    requires Bindable(journeyId) && JourneysWithId(DbOf(st), journeyId) != []
    ensures Fork(st, journeyId, userId) == ForkCreate(st, JourneysWithId(DbOf(st), journeyId)[0], journeyId, userId)
  {
    ReadOutcome(st, SelectJourneyById(journeyId));
  }

  /** When the file cannot be written, the first save fails: the error is reported, but the new journey
      row stays in memory (nothing is rolled back) and the file is as it was. */
  lemma ForkWithoutSnapshot(st: StoreState, journeyId: JsValue, userId: JsValue)
    requires Ready(st) && !st.writable && Bindable(journeyId) && Bindable(userId)
    requires JourneysWithId(DbOf(st), journeyId) != []
    ensures var (after, r) := Fork(st, journeyId, userId);
      && r == Err(IoFailure) && after.file == st.file && Ready(after)
      && DbOf(after) == WithForkedJourney(DbOf(st), JourneysWithId(DbOf(st), journeyId)[0], userId)
  {
    ConformsPrepares(DbOf(st).catalog, SelectJourneyById(journeyId));
    ForkStarts(st, journeyId, userId);
    ConformsPrepares(DbOf(st).catalog, ForkStatement(JourneysWithId(DbOf(st), journeyId)[0], userId));
    ForkInsertOutcome(st, JourneysWithId(DbOf(st), journeyId)[0], userId);
  }

  /** The failures before anything is written leave the state untouched. */
  lemma ForkRefused(st: StoreState, journeyId: JsValue, userId: JsValue)
    ensures st.db.None? ==> Fork(st, journeyId, userId) == (st, Err(NotInitialized))
    ensures st.db.Some? && st.db.value.image.Unreadable? ==> Fork(st, journeyId, userId) == (st, Err(NotADatabase))
    ensures Ready(st) && !Bindable(journeyId) ==> Fork(st, journeyId, userId) == (st, Err(BindError))
    ensures Ready(st) && Bindable(journeyId) && JourneysWithId(DbOf(st), journeyId) == [] ==>
      Fork(st, journeyId, userId) == (st, Err(JourneyNotFound))
    ensures Ready(st) && Bindable(journeyId) && JourneysWithId(DbOf(st), journeyId) != [] && !Bindable(userId) ==>
      Fork(st, journeyId, userId) == (st, Err(BindError))
  {
    if Ready(st) && Bindable(journeyId) {
      ConformsPrepares(DbOf(st).catalog, SelectJourneyById(journeyId));
      ReadOutcome(st, SelectJourneyById(journeyId));
      if JourneysWithId(DbOf(st), journeyId) != [] {
        ConformsPrepares(DbOf(st).catalog, ForkStatement(JourneysWithId(DbOf(st), journeyId)[0], userId));
        ForkInsertOutcome(st, JourneysWithId(DbOf(st), journeyId)[0], userId);
      }
    }
  }

  // ---------------------------------------------------------------- what the reference description implies

  /** Table by table: a fork adds one journey row, the chapter copies and the note copies, and
      changes nothing else. */
  lemma ForkedTables(d: SoundDatabase, original: Row, userId: JsValue, chapters: seq<Row>, notes: seq<Row>)
    requires Bindable(userId)
    ensures var newJourneyId := d.journeys.lastId + 1;
      var f := ContentsCopied(WithForkedJourney(d, original, userId), chapters, notes, newJourneyId);
      && f.catalog == d.catalog && f.users == d.users && f.forkedJourneys == d.forkedJourneys
      && f.journeys.rows == d.journeys.rows + [Entry(newJourneyId, ForkedRow(original, userId))]
      && f.chapters.rows == d.chapters.rows + ChapterCopies(chapters, newJourneyId, d.chapters.lastId)
      && f.notes.rows == d.notes.rows + NoteCopies(notes, IdMap(map[], chapters, d.chapters.lastId), newJourneyId, d.notes.lastId)
  {
    var d1 := WithForkedJourney(d, original, userId);
    var newJourneyId := d.journeys.lastId + 1;
    WithChapterCopiesKeeps(d1, chapters, newJourneyId);
    var d2 := WithChapterCopies(d1, chapters, newJourneyId);
    WithNoteCopiesKeeps(d2, notes, IdMap(map[], chapters, d.chapters.lastId), newJourneyId);
  }

  /** The forked journey is private, belongs to the forking user, keeps a non-empty description, and
      is titled "Fork of" the original title ("Untitled" when that is empty or NULL). */
  lemma ForkedRowFields(e: Entry<Journey>, userId: JsValue)
    requires Bindable(userId)
    ensures var f := ForkedRow(JourneyObject(e), userId);
      && f.isPublic == SqlInt(0) && f.userId == Bind(userId)
      && f.description == SqlOr(e.row.description, SqlText(""))
      && (e.row.title.SqlText? && e.row.title.t != "" ==> f.title == SqlText("Fork of " + e.row.title.t))
      && (e.row.title in {SqlNull, SqlText("")} ==> f.title == SqlText("Fork of Untitled"))
  {
    BindOr(e.row.description, SqlText(""));
  }

  /** A copied chapter keeps each non-empty field of the stored chapter, takes the loop's default for
      an empty one, has no external link, is not completed, and belongs to the new journey. */
  lemma CopiedChapterFields(e: Entry<Chapter>, newJourneyId: int)
    ensures var c := CopiedChapter(ChapterObject(e), newJourneyId);
      && c.title == SqlOr(e.row.title, SqlText("Untitled Chapter"))
      && c.description == SqlOr(e.row.description, SqlText(""))
      && c.videoLink == SqlOr(e.row.videoLink, SqlText(""))
      && c.chapterNo == SqlOr(e.row.chapterNo, SqlInt(1))
      && c.externalLink == SqlNull && c.isCompleted == SqlInt(0) && c.journeyId == SqlInt(newJourneyId)
  {
    BindOr(e.row.title, SqlText("Untitled Chapter"));
    BindOr(e.row.description, SqlText(""));
    BindOr(e.row.videoLink, SqlText(""));
    BindOr(e.row.chapterNo, SqlInt(1));
  }

  /** A copied note keeps its content (or '') and points at `newChapterId` in the new journey. */
  lemma CopiedNoteFields(e: Entry<Note>, newChapterId: JsValue, newJourneyId: int)
    requires Truthy(newChapterId)
    ensures var c := CopiedNote(NoteObject(e), newChapterId, newJourneyId);
      c.content == SqlOr(e.row.content, SqlText("")) && c.chapterId == Bind(newChapterId) && c.journeyId == SqlInt(newJourneyId)
  {
    BindOr(e.row.content, SqlText(""));
  }

  /** `chapterIdMap` after the loop has as keys the ones it started with and every chapter id seen. */
  lemma {:induction false} IdMapKeys(m: ChapterIdMap, chapters: seq<Row>, base: int)
    ensures forall key :: key in IdMap(m, chapters, base) <==>
      key in m || exists k :: 0 <= k < |chapters| && key == Get(chapters[k], Id)
    decreases |chapters|
  {
    if chapters != [] {
      var rest := chapters[1..];
      var m1 := m[Get(chapters[0], Id) := Num(base + 1)];
      assert IdMap(m, chapters, base) == IdMap(m1, rest, base + 1);
      IdMapKeys(m1, rest, base + 1);
      forall key | key in IdMap(m, chapters, base)
        ensures key in m || exists k :: 0 <= k < |chapters| && key == Get(chapters[k], Id)
      {
        if key !in m && key != Get(chapters[0], Id) {
          var k :| 0 <= k < |rest| && key == Get(rest[k], Id);
          assert rest[k] == chapters[k + 1];
        }
      }
      forall key | key in m || exists k :: 0 <= k < |chapters| && key == Get(chapters[k], Id)
        ensures key in IdMap(m, chapters, base)
      {
        if key !in m && key != Get(chapters[0], Id) {
          var k :| 0 <= k < |chapters| && key == Get(chapters[k], Id);
          assert rest[k - 1] == chapters[k];
        }
      }
    }
  }

  /** A key never seen keeps its value. */
  lemma {:induction false} IdMapUntouched(m: ChapterIdMap, chapters: seq<Row>, base: int, key: JsValue)
    requires key in m && forall k :: 0 <= k < |chapters| ==> key != Get(chapters[k], Id)
    ensures key in IdMap(m, chapters, base) && IdMap(m, chapters, base)[key] == m[key]
    decreases |chapters|
  {
    if chapters != [] {
      var rest := chapters[1..];
      assert forall k :: 0 <= k < |rest| ==> rest[k] == chapters[k + 1];
      IdMapUntouched(m[Get(chapters[0], Id) := Num(base + 1)], rest, base + 1, key);
    }
  }

  /** A chapter id maps to the id of the copy of its last occurrence. */
  lemma {:induction false} IdMapLast(m: ChapterIdMap, chapters: seq<Row>, base: int, k: nat)
    requires k < |chapters| && forall l :: k < l < |chapters| ==> Get(chapters[l], Id) != Get(chapters[k], Id)
    ensures Get(chapters[k], Id) in IdMap(m, chapters, base)
    ensures IdMap(m, chapters, base)[Get(chapters[k], Id)] == Num(base + 1 + k)
    decreases |chapters|
  {
    var rest := chapters[1..];
    var m1 := m[Get(chapters[0], Id) := Num(base + 1)];
    assert forall l :: 0 <= l < |rest| ==> rest[l] == chapters[l + 1];
    if k == 0 {
      IdMapUntouched(m1, rest, base + 1, Get(chapters[0], Id));
    } else {
      IdMapLast(m1, rest, base + 1, k - 1);
    }
  }

  /** No two rows share an `id`. */
  predicate DistinctIds(rows: seq<Row>)
  {
    forall k, l :: 0 <= k < l < |rows| ==> Get(rows[k], Id) != Get(rows[l], Id)
  }

  /** The source chapters of a fork have distinct ids. */
  lemma SourceChaptersDistinct(d: SoundDatabase, journeyId: JsValue)
    requires Bindable(journeyId)
    ensures DistinctIds(ChaptersOf(d, journeyId))
  {
    var kept := Filter(d.chapters.rows, ChapterOf(Bind(journeyId)));
    FilterKeepsOrder(d.chapters.rows, ChapterOf(Bind(journeyId)));
    var src := ChaptersOf(d, journeyId);
    forall k, l | 0 <= k < l < |src| ensures Get(src[k], Id) != Get(src[l], Id) {
      assert Get(src[k], Id) == Num(kept[k].id) && Get(src[l], Id) == Num(kept[l].id);
    }
  }

  /** A note is copied exactly when its `chapter_id` is the id of one of the source chapters. */
  lemma NoteCopiedIff(d: SoundDatabase, journeyId: JsValue, note: Row)
    requires Bindable(journeyId)
    ensures var src := ChaptersOf(d, journeyId);
      HasCopy(ForkIdMap(d, journeyId))(note) <==> exists k :: 0 <= k < |src| && Get(note, ChapterId) == Get(src[k], Id)
  {
    var src := ChaptersOf(d, journeyId);
    SourceChaptersDistinct(d, journeyId);
    NoteLookup(src, d.chapters.lastId, note);
    assert ForkIdMap(d, journeyId) == IdMap(map[], src, d.chapters.lastId);
  }

  /** A copied note points at the copy of its chapter: the `k`-th copy, numbered on from the chapter
      counter. */
  lemma NoteFollowsItsChapter(d: SoundDatabase, journeyId: JsValue, note: Row, k: nat)
    requires Bindable(journeyId)
    requires k < |ChaptersOf(d, journeyId)| && Get(note, ChapterId) == Get(ChaptersOf(d, journeyId)[k], Id)
    ensures Lookup(ForkIdMap(d, journeyId), Get(note, ChapterId)) == Num(d.chapters.lastId + 1 + k)
  {
    var src := ChaptersOf(d, journeyId);
    SourceChaptersDistinct(d, journeyId);
    NoteLookup(src, d.chapters.lastId, note);
    assert ForkIdMap(d, journeyId) == IdMap(map[], src, d.chapters.lastId);
  }

  lemma NoteLookup(src: seq<Row>, base: nat, note: Row)
    requires DistinctIds(src)
    ensures HasCopy(IdMap(map[], src, base))(note) <==> exists k :: 0 <= k < |src| && Get(note, ChapterId) == Get(src[k], Id)
    ensures forall k :: 0 <= k < |src| && Get(note, ChapterId) == Get(src[k], Id) ==>
      Lookup(IdMap(map[], src, base), Get(note, ChapterId)) == Num(base + 1 + k)
  {
    IdMapKeys(map[], src, base);
    forall k | 0 <= k < |src| && Get(note, ChapterId) == Get(src[k], Id)
      ensures Lookup(IdMap(map[], src, base), Get(note, ChapterId)) == Num(base + 1 + k)
    {
      IdMapLast(map[], src, base, k);
    }
  }

  // ---------------------------------------------------------------- the public listing

  /** A journey row that is not public adds nothing to the public-journey join. */
  lemma {:induction false} PublicJoinSkipsPrivate(js: seq<Entry<Journey>>, j: Entry<Journey>, users: seq<Entry<User>>)
    requires j.row.isPublic == SqlInt(0)
    ensures PublicJoin(js + [j], users) == PublicJoin(js, users)
  {
    if js == [] {
      assert PublicJoin([j], users) == Objects([], u => PublicObject(j, u)) + PublicJoin([], users);
    } else {
      assert (js + [j])[0] == js[0] && (js + [j])[1..] == js[1..] + [j];
      PublicJoinSkipsPrivate(js[1..], j, users);
    }
  }

  /** A fork leaves the public listing as it was: the new journey is private. */
  lemma ForkKeepsPublicListing(st: StoreState, journeyId: JsValue, userId: JsValue)
    requires Ready(st) && st.writable && Bindable(journeyId) && Bindable(userId)
    requires JourneysWithId(DbOf(st), journeyId) != []
    ensures GetAllPublicJourneys(Fork(st, journeyId, userId).0) == GetAllPublicJourneys(st)
  {
    var d := DbOf(st);
    var after := Fork(st, journeyId, userId).0;
    ForkSucceeds(st, journeyId, userId);
    PublicRows(st);
    PublicRows(after);
    ForkedPublicJoin(d, JourneysWithId(d, journeyId)[0], userId, ChaptersOf(d, journeyId), NotesOf(d, journeyId));
  }

  lemma ForkedPublicJoin(d: SoundDatabase, original: Row, userId: JsValue, chapters: seq<Row>, notes: seq<Row>)
    requires Bindable(userId)
    ensures var f := ContentsCopied(WithForkedJourney(d, original, userId), chapters, notes, d.journeys.lastId + 1);
      PublicJoin(f.journeys.rows, f.users.rows) == PublicJoin(d.journeys.rows, d.users.rows)
  {
    ForkedTables(d, original, userId, chapters, notes);
    PublicJoinSkipsPrivate(d.journeys.rows, Entry(d.journeys.lastId + 1, ForkedRow(original, userId)), d.users.rows);
  }

  // ---------------------------------------------------------------- a fork that stops part-way

  /** A file whose tables have the declared columns, except that the chapters table has no `chapter_no`
      (it was created under another layout, which `CREATE TABLE IF NOT EXISTS` leaves as it is). */
  ghost predicate LacksChapterNo(catalog: Catalog)
  {
    && (forall n: TableName, name: Column :: name in DeclaredNames(n) && (n, name) != (ChaptersTable, ChapterNo) ==>
          HasColumn(catalog, n, name))
    && !HasColumn(catalog, ChaptersTable, ChapterNo)
  }

  /** On such a file every statement that does not name `chapters.chapter_no` still prepares. */
  lemma PreparesWithoutChapterNo(catalog: Catalog, s: Statement)
    requires LacksChapterNo(catalog) && (ChaptersTable, ChapterNo) !in s.Needs()
    ensures Prepares(catalog, s)
  {
    forall k | 0 <= k < |s.Needs()| ensures HasColumn(catalog, s.Needs()[k].0, s.Needs()[k].1) {
      NeedIsDeclared(s, s.Needs()[k]);
    }
  }

  /** When the chapters table has `title`, `description` and `video_link` but no `chapter_no`, the chapter
      insert does not prepare, and the error names `chapters.chapter_no`. */
  lemma ChapterInsertError(catalog: Catalog, s: Statement)
    requires s.InsertChapter?
    requires HasColumn(catalog, ChaptersTable, Title) && HasColumn(catalog, ChaptersTable, Description)
    requires HasColumn(catalog, ChaptersTable, VideoLink) && !HasColumn(catalog, ChaptersTable, ChapterNo)
    ensures !Prepares(catalog, s) && PrepareError(catalog, s) == NoColumnNamed("chapters", "chapter_no")
  {
    ChapterInsertNeeds(s);
    assert !HasColumn(catalog, s.Needs()[3].0, s.Needs()[3].1);
    ChapterNoFirstMissing(catalog, s.Needs());
    NamedError(catalog, s);
  }

  /** The chapter insert names the chapters table's `title`, `description`, `video_link`, `chapter_no`
      and `journey_id`, in that order. */
  lemma ChapterInsertNeeds(s: Statement)
    requires s.InsertChapter?
    ensures s.Needs() == [(ChaptersTable, Title), (ChaptersTable, Description), (ChaptersTable, VideoLink),
                          (ChaptersTable, ChapterNo), (ChaptersTable, JourneyId)]
  {
  }

  /** The error for a chapter insert whose first missing column is `chapter_no` of an existing table. */
  lemma NamedError(catalog: Catalog, s: Statement)
    requires s.InsertChapter? && !Prepares(catalog, s) && ChaptersTable in catalog
    requires MissingColumn(catalog, s.Needs()) == Some((ChaptersTable, ChapterNo))
    ensures PrepareError(catalog, s) == NoColumnNamed("chapters", "chapter_no")
  {
  }

  /** Of the chapter insert's columns, `chapter_no` is the first such a schema lacks. */
  lemma ChapterNoFirstMissing(catalog: Catalog, needs: seq<(TableName, Column)>)
    requires needs == [(ChaptersTable, Title), (ChaptersTable, Description), (ChaptersTable, VideoLink),
                       (ChaptersTable, ChapterNo), (ChaptersTable, JourneyId)]
    requires HasColumn(catalog, ChaptersTable, Title) && HasColumn(catalog, ChaptersTable, Description)
    requires HasColumn(catalog, ChaptersTable, VideoLink) && !HasColumn(catalog, ChaptersTable, ChapterNo)
    ensures MissingColumn(catalog, needs) == Some((ChaptersTable, ChapterNo))
  {
    assert MissingColumn(catalog, needs[3..]) == Some((ChaptersTable, ChapterNo));
    assert needs[2..][1..] == needs[3..] && needs[1..][1..] == needs[2..];
  }

  /** On a file without `chapters.chapter_no` a chapter copy fails, naming the missing column, and changes nothing. */
  lemma ChapterCopyFails(st: StoreState, chapter: Row, newJourneyId: JsValue)
    requires Opened(st) && LacksChapterNo(DbOf(st).catalog)
    ensures InsertId(st, ChapterCopy(chapter, newJourneyId)) == (st, Err(NoColumnNamed("chapters", "chapter_no")))
  {
    var catalog := DbOf(st).catalog;
    assert HasColumn(catalog, ChaptersTable, Title) by { assert Title in DeclaredNames(ChaptersTable); }
    assert HasColumn(catalog, ChaptersTable, Description) by { assert Description in DeclaredNames(ChaptersTable); }
    assert HasColumn(catalog, ChaptersTable, VideoLink) by { assert VideoLink in DeclaredNames(ChaptersTable); }
    ChapterInsertError(catalog, ChapterCopy(chapter, newJourneyId));
    Refused(st, ChapterCopy(chapter, newJourneyId));
  }

  /** Steps 3 and 4 of the fork on such a file, for a source with chapters: the first copy fails. */
  lemma ForkContentsStops(st: StoreState, journeyId: JsValue, newJourneyId: int)
    requires Opened(st) && LacksChapterNo(DbOf(st).catalog) && Bindable(journeyId) && ChaptersOf(DbOf(st), journeyId) != []
    ensures ForkContents(st, journeyId, newJourneyId) == (st, Err(NoColumnNamed("chapters", "chapter_no")))
  {
    PreparesWithoutChapterNo(DbOf(st).catalog, SelectChaptersOfJourney(journeyId));
    ReadOutcome(st, SelectChaptersOfJourney(journeyId));
    ChapterCopyFails(st, ChaptersOf(DbOf(st), journeyId)[0], Num(newJourneyId));
  }

  /** From step 2 on, on such a file: the journey insert succeeds and is saved, then the first chapter
      copy fails. */
  lemma ForkCreateStops(st: StoreState, original: Row, journeyId: JsValue, userId: JsValue)
    requires Opened(st) && st.writable && LacksChapterNo(DbOf(st).catalog) && Bindable(journeyId) && Bindable(userId)
    requires ChaptersOf(DbOf(st), journeyId) != []
    ensures var d1 := WithForkedJourney(DbOf(st), original, userId);
      ForkCreate(st, original, journeyId, userId)
        == (Applied(st, Conn(Db(d1), d1.journeys.lastId, 1)), Err(NoColumnNamed("chapters", "chapter_no")))
  {
    var d1 := WithForkedJourney(DbOf(st), original, userId);
    var st1 := Applied(st, Conn(Db(d1), d1.journeys.lastId, 1));
    ForkInsertSaved(st, original, userId);
    ForkedContentsStop(st, original, journeyId, userId);
  }

  /** On such a file the fork's journey insert still prepares, runs and is saved. */
  lemma ForkInsertSaved(st: StoreState, original: Row, userId: JsValue)
    requires Opened(st) && st.writable && LacksChapterNo(DbOf(st).catalog) && Bindable(userId)
    ensures var d1 := WithForkedJourney(DbOf(st), original, userId);
      InsertId(st, ForkStatement(original, userId)) == (Applied(st, Conn(Db(d1), d1.journeys.lastId, 1)), Ok(d1.journeys.lastId))
  {
    ForkInsertPrepares(DbOf(st).catalog, original, userId);
    ForkInsertOutcome(st, original, userId);
  }

  /** The fork's journey insert names no column of the chapters table, so it prepares on such a file. */
  lemma ForkInsertPrepares(catalog: Catalog, original: Row, userId: JsValue)
    requires LacksChapterNo(catalog)
    ensures Prepares(catalog, ForkStatement(original, userId))
  {
    PreparesWithoutChapterNo(catalog, ForkStatement(original, userId));
  }

  /** After that insert, the contents step stops at the first chapter copy and changes nothing more. */
  lemma ForkedContentsStop(st: StoreState, original: Row, journeyId: JsValue, userId: JsValue)
    requires Opened(st) && LacksChapterNo(DbOf(st).catalog) && Bindable(journeyId) && Bindable(userId)
    requires ChaptersOf(DbOf(st), journeyId) != []
    ensures var d1 := WithForkedJourney(DbOf(st), original, userId);
      var st1 := Applied(st, Conn(Db(d1), d1.journeys.lastId, 1));
      ForkContents(st1, journeyId, d1.journeys.lastId) == (st1, Err(NoColumnNamed("chapters", "chapter_no")))
  {
    var d1 := WithForkedJourney(DbOf(st), original, userId);
    var st1 := Applied(st, Conn(Db(d1), d1.journeys.lastId, 1));
    assert Opened(st1) && DbOf(st1) == d1;
    assert ChaptersOf(d1, journeyId) == ChaptersOf(DbOf(st), journeyId);
    ForkContentsStops(st1, journeyId, d1.journeys.lastId);
  }

  /** On such a file the fork stops at its first chapter copy: the error names the missing column, and
      the new journey row, already inserted and saved, stays (nothing is rolled back). */
  lemma ForkStopsAtChapterCopy(st: StoreState, journeyId: JsValue, userId: JsValue)
    requires Opened(st) && st.writable && LacksChapterNo(DbOf(st).catalog) && Bindable(journeyId) && Bindable(userId)
    requires JourneysWithId(DbOf(st), journeyId) != [] && ChaptersOf(DbOf(st), journeyId) != []
    ensures var (after, r) := Fork(st, journeyId, userId);
      && r == Err(NoColumnNamed("chapters", "chapter_no")) && Opened(after) && Synced(after)
      && DbOf(after) == WithForkedJourney(DbOf(st), JourneysWithId(DbOf(st), journeyId)[0], userId)
  {
    var original := JourneysWithId(DbOf(st), journeyId)[0];
    PreparesWithoutChapterNo(DbOf(st).catalog, SelectJourneyById(journeyId));
    ForkStarts(st, journeyId, userId);
    ForkCreateStops(st, original, journeyId, userId);
  }
}
