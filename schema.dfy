/** The five tables created at start-up, as data, and the effect of running
    their `CREATE TABLE IF NOT EXISTS` statements against an existing schema. */
module Schema {

  datatype ColumnType = Integer | Varchar(size: nat) | Text | Boolean | DateTime

  datatype Default = NoDefault | DefaultTrue | DefaultFalse | CurrentTimestamp

  /** Column names: those of the declared tables, or any other a table found in a file may have. */
  datatype Column =
    | Id | Username | Email | Password | Title | Description | IsPublic | UserId | VideoLink | ExternalLink
    | IsCompleted | ChapterNo | JourneyId | OriginalJourneyId | Content | ChapterId | CreatedAt | UpdatedAt
    | Other(text: string)
  {
    /** The name as the SQL text spells it. */
    function Name(): string
    {
      match this
      case Id => "id"
      case Username => "username"
      case Email => "email"
      case Password => "password"
      case Title => "title"
      case Description => "description"
      case IsPublic => "is_public"
      case UserId => "user_id"
      case VideoLink => "video_link"
      case ExternalLink => "external_link"
      case IsCompleted => "is_completed"
      case ChapterNo => "chapter_no"
      case JourneyId => "journey_id"
      case OriginalJourneyId => "original_journey_id"
      case Content => "content"
      case ChapterId => "chapter_id"
      case CreatedAt => "created_at"
      case UpdatedAt => "updated_at"
      case Other(text) => text
    }
  }

  datatype ColumnDecl = ColumnDecl(
    name: Column,
    kind: ColumnType,
    autoIncrementKey: bool,
    notNull: bool,
    unique: bool,
    default: Default)

  /** Declared only: the adapter never turns on `PRAGMA foreign_keys`, so SQLite neither checks nor cascades these. */
  datatype ForeignKey = ForeignKey(column: Column, table: TableName, key: Column, onDeleteCascade: bool)

  datatype TableDecl = TableDecl(columns: seq<ColumnDecl>, foreignKeys: seq<ForeignKey>)

  datatype TableName = UsersTable | JourneysTable | ChaptersTable | ForkedJourneysTable | NotesTable
  {
    function Name(): string
    {
      match this
      case UsersTable => "users"
      case JourneysTable => "journeys"
      case ChaptersTable => "chapters"
      case ForkedJourneysTable => "forked_journeys"
      case NotesTable => "notes"
    }
  }

  /** The tables a database image holds, by name. */
  type Catalog = map<TableName, TableDecl>

  function Key(): ColumnDecl { ColumnDecl(Id, Integer, true, false, false, NoDefault) }
  function Col(name: Column, kind: ColumnType, notNull: bool): ColumnDecl { ColumnDecl(name, kind, false, notNull, false, NoDefault) }
  function Cascade(column: Column, table: TableName): ForeignKey { ForeignKey(column, table, Id, true) }

  const Users := TableDecl(
    [Key(), Col(Username, Varchar(100), true),
     ColumnDecl(Email, Varchar(100), false, true, true, NoDefault),
     Col(Password, Varchar(255), true)],
    [])

  const Journeys := TableDecl(
    [Key(), Col(Title, Varchar(255), true), Col(Description, Text, false),
     ColumnDecl(IsPublic, Boolean, false, true, false, DefaultTrue),
     Col(UserId, Integer, false)],
    [Cascade(UserId, UsersTable)])

  const Chapters := TableDecl(
    [Key(), Col(Title, Varchar(255), true), Col(Description, Text, false),
     Col(VideoLink, Varchar(255), true), Col(ExternalLink, Varchar(255), false),
     ColumnDecl(IsCompleted, Boolean, false, true, false, DefaultFalse),
     Col(ChapterNo, Integer, true), Col(JourneyId, Integer, false)],
    [Cascade(JourneyId, JourneysTable)])

  const ForkedJourneys := TableDecl(
    [Key(), Col(UserId, Integer, false), Col(OriginalJourneyId, Integer, false)],
    [Cascade(UserId, UsersTable), Cascade(OriginalJourneyId, JourneysTable)])

  const Notes := TableDecl(
    [Key(), Col(Content, Text, true), Col(ChapterId, Integer, true), Col(JourneyId, Integer, true),
     ColumnDecl(CreatedAt, DateTime, false, false, false, CurrentTimestamp),
     ColumnDecl(UpdatedAt, DateTime, false, false, false, CurrentTimestamp)],
    [Cascade(ChapterId, ChaptersTable), Cascade(JourneyId, JourneysTable)])

  /** The definition the `CREATE TABLE` statement for each table carries. */
  function Declared(n: TableName): TableDecl
  {
    match n
    case UsersTable => Users
    case JourneysTable => Journeys
    case ChaptersTable => Chapters
    case ForkedJourneysTable => ForkedJourneys
    case NotesTable => Notes
  }

  /** One `CREATE TABLE IF NOT EXISTS name (...)`. */
  function CreateIfNotExists(catalog: Catalog, name: TableName): Catalog
  {
    if name in catalog then catalog else catalog[name := Declared(name)]
  }

  /** `createTables`: the five statements, one after the other, in source order. */
  function CreateTables(catalog: Catalog): Catalog
  {
    var c1 := CreateIfNotExists(catalog, UsersTable);
    var c2 := CreateIfNotExists(c1, JourneysTable);
    var c3 := CreateIfNotExists(c2, ChaptersTable);
    var c4 := CreateIfNotExists(c3, ForkedJourneysTable);
    CreateIfNotExists(c4, NotesTable)
  }

  /** Initialisation leaves the five tables in place, keeps every existing table (and its
      definition) as it was, and gives each missing table its declared definition. */
  lemma CreateTablesEffect(catalog: Catalog)
    ensures forall n: TableName :: n in CreateTables(catalog)
    ensures forall n :: n in catalog ==> CreateTables(catalog)[n] == catalog[n]
    ensures forall n :: n !in catalog ==> CreateTables(catalog)[n] == Declared(n)
  {
    forall n ensures n in CreateTables(catalog)
      ensures n in catalog ==> CreateTables(catalog)[n] == catalog[n]
      ensures n !in catalog ==> CreateTables(catalog)[n] == Declared(n)
    {
      CreateStep(catalog, n);
    }
  }

  /** The table `n` after the five statements is the one `CreateIfNotExists` gives it on its own. */
  lemma CreateStep(catalog: Catalog, n: TableName)
    ensures n in CreateTables(catalog)
    ensures CreateTables(catalog)[n] == CreateIfNotExists(catalog, n)[n]
  {
    var c1 := CreateIfNotExists(catalog, UsersTable);
    var c2 := CreateIfNotExists(c1, JourneysTable);
    var c3 := CreateIfNotExists(c2, ChaptersTable);
    var c4 := CreateIfNotExists(c3, ForkedJourneysTable);
    if n != UsersTable { CreateOther(catalog, UsersTable, n); }
    if n != JourneysTable { CreateOther(c1, JourneysTable, n); }
    if n != ChaptersTable { CreateOther(c2, ChaptersTable, n); }
    if n != ForkedJourneysTable { CreateOther(c3, ForkedJourneysTable, n); }
    if n != NotesTable { CreateOther(c4, NotesTable, n); }
  }

  /** Creating one table leaves every other table as it was. */
  lemma CreateOther(catalog: Catalog, name: TableName, n: TableName)
    requires n != name
    ensures n in CreateIfNotExists(catalog, name) <==> n in catalog
    ensures n in catalog ==> CreateIfNotExists(catalog, name)[n] == catalog[n]
  {
  }

  /** Running initialisation a second time adds no table and changes no definition. */
  lemma CreateTablesIdempotent(catalog: Catalog)
    ensures CreateTables(CreateTables(catalog)) == CreateTables(catalog)
  {
    CreateTablesEffect(catalog);
    CreateTablesEffect(CreateTables(catalog));
  }

  // ---------------------------------------------------------------- columns a statement can name

  /** The table definition has a column called `name`. */
  predicate Declares(t: TableDecl, name: Column)
  {
    exists c :: c in t.columns && c.name == name
  }

  /** The table `n` exists and has a column called `name`. */
  predicate HasColumn(catalog: Catalog, n: TableName, name: Column)
  {
    n in catalog && Declares(catalog[n], name)
  }

  /** The column names each `CREATE TABLE` statement declares, in order. */
  function DeclaredNames(n: TableName): seq<Column>
  {
    match n
    case UsersTable => [Id, Username, Email, Password]
    case JourneysTable => [Id, Title, Description, IsPublic, UserId]
    case ChaptersTable => [Id, Title, Description, VideoLink, ExternalLink, IsCompleted, ChapterNo, JourneyId]
    case ForkedJourneysTable => [Id, UserId, OriginalJourneyId]
    case NotesTable => [Id, Content, ChapterId, JourneyId, CreatedAt, UpdatedAt]
  }

  /** The names listed are exactly those of the declaration. */
  lemma DeclaredNamesAgree(n: TableName, name: Column)
    ensures name in DeclaredNames(n) <==> Declares(Declared(n), name)
  {
    var t, names := Declared(n), DeclaredNames(n);
    assert |names| == |t.columns| && forall i :: 0 <= i < |names| ==> t.columns[i].name == names[i];
    NamesOf(t, names, name);
  }

  lemma NamesOf(t: TableDecl, names: seq<Column>, name: Column)
    requires |names| == |t.columns| && forall i :: 0 <= i < |names| ==> t.columns[i].name == names[i]
    ensures name in names <==> Declares(t, name)
  {
    if name in names {
      var i :| 0 <= i < |names| && names[i] == name;
      assert t.columns[i] in t.columns;
    }
    if Declares(t, name) {
      var c :| c in t.columns && c.name == name;
      var i :| 0 <= i < |t.columns| && t.columns[i] == c;
      assert names[i] == name;
    }
  }

  /** Every table exists, with at least the columns its `CREATE TABLE` statement declares. */
  ghost predicate Conforms(catalog: Catalog)
  {
    forall n: TableName, name: Column :: name in DeclaredNames(n) ==> HasColumn(catalog, n, name)
  }

  /** After initialisation the schema is the declared one exactly when every table found in the file
      already had the declared columns: `IF NOT EXISTS` never alters a table that is there. */
  lemma InitConforms(catalog: Catalog)
    ensures Conforms(CreateTables(catalog)) <==>
      forall n: TableName, name: Column :: n in catalog && name in DeclaredNames(n) ==> Declares(catalog[n], name)
  {
    CreateTablesEffect(catalog);
    forall n: TableName, name: Column | n !in catalog && name in DeclaredNames(n)
      ensures HasColumn(CreateTables(catalog), n, name)
    {
      DeclaredNamesAgree(n, name);
    }
  }
}
