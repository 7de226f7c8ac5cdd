/** The embedded SQLite engine (sql.js) as far as the repository's statements
    use it: the stored tables, the statements the journey repository and the
    fork issue, and what executing each one does. */
module Engine {
  import opened Values
  import opened Outcomes
  import opened Schema
  import opened SqlText

  /** A stored row with its rowid. */
  datatype Entry<T> = Entry(id: int, row: T)

  /** A table: its rows in rowid order and its AUTOINCREMENT counter (`sqlite_sequence`). */
  datatype Table<T> = Table(rows: seq<Entry<T>>, lastId: nat)

  /** Rowids are unique, ascending, and never above the counter. */
  predicate WellFormed<T>(t: Table<T>)
  {
    && (forall i :: 0 <= i < |t.rows| ==> t.rows[i].id <= t.lastId)
    && Ascending(t.rows)
  }

  /** `INSERT` into an AUTOINCREMENT table: the row gets the next id and goes last. */
  function Insert<T>(t: Table<T>, r: T): (u: Table<T>)
    ensures WellFormed(t) ==> WellFormed(u)
    ensures u.rows == t.rows + [Entry(t.lastId + 1, r)] && u.lastId == t.lastId + 1
  {
    Table(t.rows + [Entry(t.lastId + 1, r)], t.lastId + 1)
  }

  datatype User = User(username: SqlValue, email: SqlValue, password: SqlValue)
  datatype Journey = Journey(title: SqlValue, description: SqlValue, isPublic: SqlValue, userId: SqlValue)
  datatype Chapter = Chapter(
    title: SqlValue, description: SqlValue, videoLink: SqlValue, externalLink: SqlValue,
    isCompleted: SqlValue, chapterNo: SqlValue, journeyId: SqlValue)
  datatype ForkedJourney = ForkedJourney(userId: SqlValue, originalJourneyId: SqlValue)
  datatype Note = Note(content: SqlValue, chapterId: SqlValue, journeyId: SqlValue)

  datatype Database = Database(
    catalog: Catalog,
    users: Table<User>,
    journeys: Table<Journey>,
    chapters: Table<Chapter>,
    forkedJourneys: Table<ForkedJourney>,
    notes: Table<Note>)

  predicate Consistent(d: Database)
  {
    WellFormed(d.users) && WellFormed(d.journeys) && WellFormed(d.chapters)
    && WellFormed(d.forkedJourneys) && WellFormed(d.notes)
  }

  /** A database image as SQLite keeps it: every table well formed. */
  type SoundDatabase = d: Database | Consistent(d)
    witness Database(map[], Table([], 0), Table([], 0), Table([], 0), Table([], 0), Table([], 0))

  /** `new SQL.Database()` with no file: no tables, no rows. */
  function EmptyDatabase(): SoundDatabase
  {
    Database(map[], Table([], 0), Table([], 0), Table([], 0), Table([], 0), Table([], 0))
  }

  // ---------------------------------------------------------------- row objects

  /** A result row: column name to JavaScript value. */
  type Row = map<Column, JsValue>

  /** `row.col`: a column the row lacks reads as `undefined`. */
  function Get(r: Row, c: Column): JsValue
  {
    if c in r then r[c] else Undefined
  }

  function JourneyObject(e: Entry<Journey>): Row
  {
    map[Id := Num(e.id), Title := FromSql(e.row.title), Description := FromSql(e.row.description),
        IsPublic := FromSql(e.row.isPublic), UserId := FromSql(e.row.userId)]
  }

  function ChapterObject(e: Entry<Chapter>): Row
  {
    map[Id := Num(e.id), Title := FromSql(e.row.title), Description := FromSql(e.row.description),
        VideoLink := FromSql(e.row.videoLink), ExternalLink := FromSql(e.row.externalLink),
        IsCompleted := FromSql(e.row.isCompleted), ChapterNo := FromSql(e.row.chapterNo),
        JourneyId := FromSql(e.row.journeyId)]
  }

  function NoteObject(e: Entry<Note>): Row
  {
    map[Id := Num(e.id), Content := FromSql(e.row.content), ChapterId := FromSql(e.row.chapterId),
        JourneyId := FromSql(e.row.journeyId)]
  }

  /** A row of the public-journey join: four journey columns and the owner's username. */
  function PublicObject(j: Entry<Journey>, u: Entry<User>): Row
  {
    map[Id := Num(j.id), Title := FromSql(j.row.title), Description := FromSql(j.row.description),
        IsPublic := FromSql(j.row.isPublic), Username := FromSql(u.row.username)]
  }

  function Objects<T>(s: seq<Entry<T>>, f: Entry<T> -> Row): (r: seq<Row>)
    ensures |r| == |s| && forall i :: 0 <= i < |s| ==> r[i] == f(s[i])
  {
    seq(|s|, i requires 0 <= i < |s| => f(s[i]))
  }

  // ---------------------------------------------------------------- filtering

  /** The rows `WHERE p` selects, in table order. */
  function Filter<T>(s: seq<T>, p: T -> bool): (r: seq<T>)
    ensures |r| <= |s|
    ensures forall i :: 0 <= i < |r| ==> r[i] in s && p(r[i])
    ensures forall i :: 0 <= i < |s| && p(s[i]) ==> s[i] in r
  {
    if s == [] then [] else (if p(s[0]) then [s[0]] else []) + Filter(s[1..], p)
  }

  lemma {:induction false} FilterAppend<T>(s: seq<T>, t: seq<T>, p: T -> bool)
    ensures Filter(s + t, p) == Filter(s, p) + Filter(t, p)
  {
    if s == [] {
      assert s + t == t;
    } else {
      assert (s + t)[0] == s[0] && (s + t)[1..] == s[1..] + t;
      FilterAppend(s[1..], t, p);
    }
  }

  predicate Ascending<T>(s: seq<Entry<T>>)
  {
    forall i, j :: 0 <= i < j < |s| ==> s[i].id < s[j].id
  }

  predicate IdsWithin<T>(s: seq<Entry<T>>, lo: int, hi: int)
  {
    forall i :: 0 <= i < |s| ==> lo < s[i].id <= hi
  }

  lemma {:induction false} FilterWithin<T>(s: seq<Entry<T>>, p: Entry<T> -> bool, lo: int, hi: int)
    requires IdsWithin(s, lo, hi)
    ensures IdsWithin(Filter(s, p), lo, hi)
  {
    if s != [] {
      FilterWithin(s[1..], p, lo, hi);
    }
  }

  lemma {:induction false} FilterKeepsOrder<T>(s: seq<Entry<T>>, p: Entry<T> -> bool)
    requires Ascending(s)
    ensures Ascending(Filter(s, p))
  {
    if s != [] {
      FilterKeepsOrder(s[1..], p);
      if p(s[0]) {
        var hi := s[|s| - 1].id;
        forall i | 0 <= i < |s[1..]| ensures s[0].id < s[1..][i].id <= hi {
          assert s[1..][i] == s[i + 1];
        }
        FilterWithin(s[1..], p, s[0].id, hi);
        ConsAscending(s[0], Filter(s[1..], p), hi);
      }
    }
  }

  /** A row whose id is below every id of an ascending sequence can go in front of it. */
  lemma ConsAscending<T>(x: Entry<T>, rest: seq<Entry<T>>, hi: int)
    requires Ascending(rest) && IdsWithin(rest, x.id, hi)
    ensures Ascending([x] + rest)
  {
    var r := [x] + rest;
    forall i, j | 0 <= i < j < |r| ensures r[i].id < r[j].id {
      assert r[j] == rest[j - 1];
      if i > 0 {
        assert r[i] == rest[i - 1];
      }
    }
  }

  /** Deleting rows keeps a table well formed. */
  lemma FilterWellFormed<T>(t: Table<T>, p: Entry<T> -> bool)
    requires WellFormed(t)
    ensures WellFormed(t.(rows := Filter(t.rows, p)))
  {
    FilterKeepsOrder(t.rows, p);
    if t.rows != [] {
      FilterWithin(t.rows, p, t.rows[0].id - 1, t.lastId);
    }
  }

  /** SQL `a = b`: never true when either side is NULL. */
  predicate SqlEq(a: SqlValue, b: SqlValue)
  {
    a != SqlNull && a == b
  }

  function KeyIs<T>(v: SqlValue): Entry<T> -> bool
  {
    (e: Entry<T>) => SqlEq(SqlInt(e.id), v)
  }

  function OwnedBy(v: SqlValue): Entry<Journey> -> bool
  {
    (e: Entry<Journey>) => SqlEq(e.row.userId, v)
  }

  function ChapterOf(v: SqlValue): Entry<Chapter> -> bool
  {
    (e: Entry<Chapter>) => SqlEq(e.row.journeyId, v)
  }

  function NoteOf(v: SqlValue): Entry<Note> -> bool
  {
    (e: Entry<Note>) => SqlEq(e.row.journeyId, v)
  }

  /** `WHERE id = ? AND user_id = ?` */
  function IdAndOwner(id: SqlValue, owner: SqlValue): Entry<Journey> -> bool
  {
    (e: Entry<Journey>) => SqlEq(SqlInt(e.id), id) && SqlEq(e.row.userId, owner)
  }

  function NotIdAndOwner(id: SqlValue, owner: SqlValue): Entry<Journey> -> bool
  {
    (e: Entry<Journey>) => !IdAndOwner(id, owner)(e)
  }

  /** `JOIN users ON journeys.user_id = users.id WHERE journeys.is_public = 1`, journeys outermost. */
  function PublicJoin(js: seq<Entry<Journey>>, users: seq<Entry<User>>): (r: seq<Row>)
    ensures users == [] ==> r == []
    ensures (forall k :: 0 <= k < |js| ==> !SqlEq(js[k].row.isPublic, SqlInt(1))) ==> r == []
  {
    if js == [] then []
    else
      var j := js[0];
      var owners := if SqlEq(j.row.isPublic, SqlInt(1)) then Filter(users, KeyIs(j.row.userId)) else [];
      Objects(owners, u => PublicObject(j, u)) + PublicJoin(js[1..], users)
  }

  /** `UPDATE journeys SET title = ?, description = ?, is_public = ? WHERE id = ? AND user_id = ?` */
  function UpdateWhere(s: seq<Entry<Journey>>, hit: Entry<Journey> -> bool,
                       title: SqlValue, description: SqlValue, isPublic: SqlValue): (r: seq<Entry<Journey>>)
    ensures |r| == |s|
    ensures forall i :: 0 <= i < |s| ==> r[i].id == s[i].id
  {
    seq(|s|, i requires 0 <= i < |s| =>
      if hit(s[i]) then Entry(s[i].id, Journey(title, description, isPublic, s[i].row.userId)) else s[i])
  }

  // ---------------------------------------------------------------- statements

  datatype JourneyColumns = PublicThenOwner | OwnerThenPublic

  /** The statements of the journey repository, with their positional parameters. */
  datatype Statement =
    | SelectJourneyById(id: JsValue)
    | SelectJourneysByOwner(userId: JsValue)
    | SelectChaptersOfJourney(journeyId: JsValue)
    | SelectNotesOfJourney(journeyId: JsValue)
    | SelectPublicJourneys
    | InsertJourney(columns: JourneyColumns, title: JsValue, description: JsValue, isPublic: JsValue, userId: JsValue)
    | InsertChapter(title: JsValue, description: JsValue, videoLink: JsValue, chapterNo: JsValue, journeyId: JsValue)
    | InsertNote(content: JsValue, chapterId: JsValue, journeyId: JsValue)
    | UpdateOwnedJourney(title: JsValue, description: JsValue, isPublic: JsValue, id: JsValue, userId: JsValue)
    | DeleteOwnedJourney(id: JsValue, userId: JsValue)
  {
    predicate IsSelect()
    {
      SelectJourneyById? || SelectJourneysByOwner? || SelectChaptersOfJourney? || SelectNotesOfJourney? || SelectPublicJourneys?
    }

    predicate IsInsert()
    {
      InsertJourney? || InsertChapter? || InsertNote?
    }

    /** The name of `column` of table `n` as the text writes it: the public listing qualifies every
        name with its table, the other texts name bare columns. */
    function Spelled(n: TableName, column: Column): string
    {
      if SelectPublicJourneys? then n.Name() + "." + column.Name() else column.Name()
    }

    /** The SQL text the repository passes: indentation, the leading keyword, and the remainder.
        The adapter's text test sends exactly the SELECT statements down the read path. */
    function Text(): (t: string)
      ensures IsRead(t) <==> IsSelect()
    {
      KeywordOf(this);
      LeadingWord(Indent(), Keyword(), Remainder());
      Indent() + Keyword() + Remainder()
    }

    function Indent(): string
    {
      if SelectPublicJourneys? then "\n      " else ""
    }

    function Keyword(): string
    {
      match this
      case InsertJourney(_, _, _, _, _) => "INSERT"
      case InsertChapter(_, _, _, _, _) => "INSERT"
      case InsertNote(_, _, _) => "INSERT"
      case UpdateOwnedJourney(_, _, _, _, _) => "UPDATE"
      case DeleteOwnedJourney(_, _) => "DELETE"
      case _ => "SELECT"
    }

    function Remainder(): string
    {
      match this
      case SelectJourneyById(_) => " * FROM journeys WHERE id = ?"
      case SelectJourneysByOwner(_) => " * FROM journeys WHERE user_id = ?"
      case SelectChaptersOfJourney(_) => " * FROM chapters WHERE journey_id = ?"
      case SelectNotesOfJourney(_) => " * FROM notes WHERE journey_id = ?"
      case SelectPublicJourneys =>
        " journeys.id, journeys.title, journeys.description, journeys.is_public, users.username\n"
        + "      FROM journeys\n      JOIN users ON journeys.user_id = users.id\n      WHERE journeys.is_public = 1\n    "
      case InsertJourney(PublicThenOwner, _, _, _, _) =>
        " INTO journeys (title, description, is_public, user_id) VALUES (?, ?, ?, ?)"
      case InsertJourney(OwnerThenPublic, _, _, _, _) =>
        " INTO journeys (title, description, user_id, is_public) VALUES (?, ?, ?, ?)"
      case InsertChapter(_, _, _, _, _) =>
        " INTO chapters (title, description, video_link, chapter_no, journey_id) VALUES (?, ?, ?, ?, ?)"
      case InsertNote(_, _, _) => " INTO notes (content, chapter_id, journey_id) VALUES (?, ?, ?)"
      case UpdateOwnedJourney(_, _, _, _, _) =>
        " journeys SET title = ?, description = ?, is_public = ? WHERE id = ? AND user_id = ?"
      case DeleteOwnedJourney(_, _) => " FROM journeys WHERE id = ? AND user_id = ?"
    }

    /** The bound values, in placeholder order. */
    function Params(): seq<JsValue>
    {
      match this
      case SelectJourneyById(id) => [id]
      case SelectJourneysByOwner(u) => [u]
      case SelectChaptersOfJourney(j) => [j]
      case SelectNotesOfJourney(j) => [j]
      case SelectPublicJourneys => []
      case InsertJourney(PublicThenOwner, t, d, p, u) => [t, d, p, u]
      case InsertJourney(OwnerThenPublic, t, d, p, u) => [t, d, u, p]
      case InsertChapter(t, d, v, n, j) => [t, d, v, n, j]
      case InsertNote(c, ch, j) => [c, ch, j]
      case UpdateOwnedJourney(t, d, p, id, u) => [t, d, p, id, u]
      case DeleteOwnedJourney(id, u) => [id, u]
    }

    predicate AllBindable()
    {
      forall v :: v in Params() ==> Bindable(v)
    }

    /** The columns the text names, with their tables, in the order they appear. */
    function Needs(): seq<(TableName, Column)>
    {
      var J, C, N, U := JourneysTable, ChaptersTable, NotesTable, UsersTable;
      match this
      case SelectJourneyById(_) => [(J, Id)]
      case SelectJourneysByOwner(_) => [(J, UserId)]
      case SelectChaptersOfJourney(_) => [(C, JourneyId)]
      case SelectNotesOfJourney(_) => [(N, JourneyId)]
      case SelectPublicJourneys => [(J, Id), (J, Title), (J, Description), (J, IsPublic), (U, Username), (J, UserId), (U, Id)]
      case InsertJourney(PublicThenOwner, _, _, _, _) => [(J, Title), (J, Description), (J, IsPublic), (J, UserId)]
      case InsertJourney(OwnerThenPublic, _, _, _, _) => [(J, Title), (J, Description), (J, UserId), (J, IsPublic)]
      case InsertChapter(_, _, _, _, _) => [(C, Title), (C, Description), (C, VideoLink), (C, ChapterNo), (C, JourneyId)]
      case InsertNote(_, _, _) => [(N, Content), (N, ChapterId), (N, JourneyId)]
      case UpdateOwnedJourney(_, _, _, _, _) => [(J, Title), (J, Description), (J, IsPublic), (J, Id), (J, UserId)]
      case DeleteOwnedJourney(_, _) => [(J, Id), (J, UserId)]
    }
  }

  // ---------------------------------------------------------------- preparing a statement

  /** The first of `needs` the schema lacks, if any. */
  function MissingColumn(catalog: Catalog, needs: seq<(TableName, Column)>)
    : (r: Option<(TableName, Column)>)
    ensures r.None? <==> forall k :: 0 <= k < |needs| ==> HasColumn(catalog, needs[k].0, needs[k].1)
    ensures r.Some? ==> !HasColumn(catalog, r.value.0, r.value.1)
    ensures r.Some? ==>
      exists k :: 0 <= k < |needs| && needs[k] == r.value && forall l :: 0 <= l < k ==> HasColumn(catalog, needs[l].0, needs[l].1)
  {
    if needs == [] then None
    else if !HasColumn(catalog, needs[0].0, needs[0].1) then Some(needs[0])
    else MissingColumn(catalog, needs[1..])
  }

  /** `db.prepare(sql)` compiles: every table and column the text names exists. */
  predicate Prepares(catalog: Catalog, s: Statement)
  {
    forall k :: 0 <= k < |s.Needs()| ==> HasColumn(catalog, s.Needs()[k].0, s.Needs()[k].1)
  }

  /** What `prepare` throws otherwise, for the first name it cannot resolve: a missing table, else a
      column an INSERT's column list names (SQLite's insert.c wording), else a column a SELECT, UPDATE
      or DELETE names (the name resolver's wording, with the name as the text writes it). */
  function PrepareError(catalog: Catalog, s: Statement): (e: Error)
    requires !Prepares(catalog, s)
    ensures e.NoSuchTable? || e.NoSuchColumn? || e.NoColumnNamed?
    ensures e.NoColumnNamed? ==> s.IsInsert()
    ensures e.NoSuchColumn? ==> !s.IsInsert()
  {
    var (n, column) := MissingColumn(catalog, s.Needs()).value;
    if n !in catalog then NoSuchTable(n.Name())
    else if s.IsInsert() then NoColumnNamed(n.Name(), column.Name())
    else NoSuchColumn(n.Name(), s.Spelled(n, column))
  }

  /** A schema with the declared tables prepares every statement of the repository. */
  lemma ConformsPrepares(catalog: Catalog, s: Statement)
    requires Conforms(catalog)
    ensures Prepares(catalog, s)
  {
    var needs := s.Needs();
    forall k | 0 <= k < |needs|
      ensures HasColumn(catalog, needs[k].0, needs[k].1)
    {
      NeedIsDeclared(s, needs[k]);
    }
  }

  /** Every column a statement names is one its table's `CREATE TABLE` declares. */
  lemma NeedIsDeclared(s: Statement, need: (TableName, Column))
    requires need in s.Needs()
    ensures need.1 in DeclaredNames(need.0)
  {
  }

  /** The rows a SELECT yields, in the order SQLite steps through them. */
  function Select(d: Database, s: Statement): (r: seq<Row>)
    requires s.AllBindable()
    ensures s.SelectJourneyById? || s.SelectJourneysByOwner? ==> |r| <= |d.journeys.rows|
    ensures s.SelectChaptersOfJourney? ==> |r| <= |d.chapters.rows|
    ensures s.SelectNotesOfJourney? ==> |r| <= |d.notes.rows|
    ensures !s.IsSelect() ==> r == []
  {
    match s
    case SelectJourneyById(id) => Objects(Filter(d.journeys.rows, KeyIs(Bind(id))), JourneyObject)
    case SelectJourneysByOwner(u) => Objects(Filter(d.journeys.rows, OwnedBy(Bind(u))), JourneyObject)
    case SelectChaptersOfJourney(j) => Objects(Filter(d.chapters.rows, ChapterOf(Bind(j))), ChapterObject)
    case SelectNotesOfJourney(j) => Objects(Filter(d.notes.rows, NoteOf(Bind(j))), NoteObject)
    case SelectPublicJourneys => PublicJoin(d.journeys.rows, d.users.rows)
    case _ => []
  }

  // ---------------------------------------------------------------- execution

  /** What a database file opens as. */
  datatype Image = Unreadable | Db(db: SoundDatabase)

  /** An open sql.js database: its image, `last_insert_rowid()` and `getRowsModified()`. */
  datatype Conn = Conn(image: Image, lastInsertRowid: int, rowsModified: nat)

  /** `prepare`, `bind` and stepping a statement to completion: the new connection and the rows produced. */
  function Exec(c: Conn, s: Statement): (r: Result<(Conn, seq<Row>)>)
    ensures r.Ok? ==> c.image.Db? && Prepares(c.image.db.catalog, s) && s.AllBindable()
    ensures r.Ok? ==> r.value.0.image.Db? && r.value.0.image.db.catalog == c.image.db.catalog
    ensures r.Ok? && s.IsSelect() ==> r.value.0 == c
    ensures r.Ok? && !s.IsSelect() ==> r.value.1 == []
  {
    if c.image.Unreadable? then Err(NotADatabase)
    else if !Prepares(c.image.db.catalog, s) then Err(PrepareError(c.image.db.catalog, s))
    else if !s.AllBindable() then Err(BindError)
    else if s.IsSelect() then Ok((c, Select(c.image.db, s)))
    else Write(c, s)
  }

  /** The statements that change a table. */
  function Write(c: Conn, s: Statement): (r: Result<(Conn, seq<Row>)>)
    requires c.image.Db? && s.AllBindable() && !s.IsSelect()
    ensures r.Ok? ==> r.value.1 == [] && r.value.0.image.Db?
    ensures r.Ok? ==> var d, e := c.image.db, r.value.0.image.db;
      e.catalog == d.catalog && e.users == d.users && e.forkedJourneys == d.forkedJourneys
    ensures r.Ok? && (s.InsertChapter? || s.InsertNote?) ==> r.value.0.image.db.journeys == c.image.db.journeys
  {
    var d := c.image.db;
    match s
    case InsertJourney(_, title, description, isPublic, userId) =>
      AddJourney(d, Bind(title), Bind(description), Bind(isPublic), Bind(userId))
    case InsertChapter(title, description, videoLink, chapterNo, journeyId) =>
      AddChapter(d, Bind(title), Bind(description), Bind(videoLink), Bind(chapterNo), Bind(journeyId))
    case InsertNote(content, chapterId, journeyId) =>
      AddNote(d, Bind(content), Bind(chapterId), Bind(journeyId))
    case UpdateOwnedJourney(title, description, isPublic, id, userId) =>
      ChangeJourneys(c, Bind(title), Bind(description), Bind(isPublic), Bind(id), Bind(userId))
    case DeleteOwnedJourney(id, userId) =>
      RemoveJourneys(c, Bind(id), Bind(userId))
  }

  /** `INSERT INTO journeys`: `title` and `is_public` are NOT NULL. */
  function AddJourney(d: SoundDatabase, title: SqlValue, description: SqlValue, isPublic: SqlValue, userId: SqlValue)
    : Result<(Conn, seq<Row>)>
  {
    if title == SqlNull then Err(NotNullViolation("journeys.title"))
    else if isPublic == SqlNull then Err(NotNullViolation("journeys.is_public"))
    else
      var t := Insert(d.journeys, Journey(title, description, isPublic, userId));
      Ok((Conn(Db(d.(journeys := t)), t.lastId, 1), []))
  }

  /** `INSERT INTO chapters`: `external_link` is left NULL and `is_completed` takes its default, false. */
  function AddChapter(d: SoundDatabase, title: SqlValue, description: SqlValue, videoLink: SqlValue,
                      chapterNo: SqlValue, journeyId: SqlValue): Result<(Conn, seq<Row>)>
  {
    if title == SqlNull then Err(NotNullViolation("chapters.title"))
    else if videoLink == SqlNull then Err(NotNullViolation("chapters.video_link"))
    else if chapterNo == SqlNull then Err(NotNullViolation("chapters.chapter_no"))
    else
      var t := Insert(d.chapters, Chapter(title, description, videoLink, SqlNull, SqlInt(0), chapterNo, journeyId));
      Ok((Conn(Db(d.(chapters := t)), t.lastId, 1), []))
  }

  /** `INSERT INTO notes`: all three columns are NOT NULL. */
  function AddNote(d: SoundDatabase, content: SqlValue, chapterId: SqlValue, journeyId: SqlValue): Result<(Conn, seq<Row>)>
  {
    if content == SqlNull then Err(NotNullViolation("notes.content"))
    else if chapterId == SqlNull then Err(NotNullViolation("notes.chapter_id"))
    else if journeyId == SqlNull then Err(NotNullViolation("notes.journey_id"))
    else
      var t := Insert(d.notes, Note(content, chapterId, journeyId));
      Ok((Conn(Db(d.(notes := t)), t.lastId, 1), []))
  }

  /** `UPDATE journeys ... WHERE id = ? AND user_id = ?`: NOT NULL is checked only on rows that match;
      `last_insert_rowid()` is left as it was. */
  function ChangeJourneys(c: Conn, title: SqlValue, description: SqlValue, isPublic: SqlValue, id: SqlValue, userId: SqlValue)
    : Result<(Conn, seq<Row>)>
    requires c.image.Db?
  {
    var d := c.image.db;
    var hit := IdAndOwner(id, userId);
    var n := |Filter(d.journeys.rows, hit)|;
    if n > 0 && title == SqlNull then Err(NotNullViolation("journeys.title"))
    else if n > 0 && isPublic == SqlNull then Err(NotNullViolation("journeys.is_public"))
    else
      var rows := UpdateWhere(d.journeys.rows, hit, title, description, isPublic);
      Ok((Conn(Db(d.(journeys := d.journeys.(rows := rows))), c.lastInsertRowid, n), []))
  }

  /** `DELETE FROM journeys WHERE id = ? AND user_id = ?`: no other table is touched. */
  function RemoveJourneys(c: Conn, id: SqlValue, userId: SqlValue): Result<(Conn, seq<Row>)>
    requires c.image.Db?
  {
    var d := c.image.db;
    var keep := NotIdAndOwner(id, userId);
    FilterWellFormed(d.journeys, keep);
    var rows := Filter(d.journeys.rows, keep);
    Ok((Conn(Db(d.(journeys := d.journeys.(rows := rows))), c.lastInsertRowid, |Filter(d.journeys.rows, IdAndOwner(id, userId))|), []))
  }

  // ---------------------------------------------------------------- dispatch

  lemma KeywordOf(s: Statement)
    ensures AllSpace(s.Indent())
    ensures |s.Keyword()| == 6 && Capitals(s.Keyword())
    ensures s.Keyword() == "SELECT" <==> s.IsSelect()
  {
  }
}
