/** The storage adapter: a process-wide, initially absent database handle, the
    snapshot file it is loaded from and written back to, start-up, and the
    `query` entry point that answers reads with rows and writes with an
    insert id and a change count, saving the snapshot after every write. */
module Storage {
  import opened Values
  import opened Outcomes
  import opened SqlText
  import opened Schema
  import opened Engine

  /** The snapshot file: absent (or unreadable), or holding the bytes of an image. */
  datatype FileContent = Missing | Saved(image: Image)

  /** What `query` resolves with: the rows of a read, or `{ insertId, affectedRows }` of a write. */
  datatype QueryResult = Rows(rows: seq<Row>) | Written(insertId: int, affectedRows: nat)

  /** The adapter's whole state: the handle (`null` until start-up), the file, and whether writing it succeeds. */
  datatype StoreState = StoreState(db: Option<Conn>, file: FileContent, writable: bool)

  /** `new SQL.Database(filebuffer)`: a missing file gives an empty database. */
  function Load(file: FileContent): (r: Image)
    ensures file.Saved? ==> r == file.image
    ensures file == Missing ==> r.Db? && r.db.catalog == map[] && r.db.journeys.rows == [] && r.db.users.rows == []
  {
    match file
    case Missing => Db(EmptyDatabase())
    case Saved(image) => image
  }

  /** `initDatabase`: open the file, create the missing tables, save. A corrupt file is opened
      (the handle is assigned) and the first statement on it fails. */
  function Initialized(st: StoreState): (r: (StoreState, Result<()>))
    ensures r.0.db.Some? && r.0.writable == st.writable
    ensures r.1.Err? ==> r.0.file == st.file
    ensures r.1.Ok? ==> r.0.db.value.image.Db? && r.0.db.value.lastInsertRowid == 0
  {
    match Load(st.file)
    case Unreadable => (st.(db := Some(Conn(Unreadable, 0, 0))), Err(NotADatabase))
    case Db(d) =>
      var c := Conn(Db(d.(catalog := CreateTables(d.catalog))), 0, 0);
      if st.writable then (st.(db := Some(c), file := Saved(c.image)), Ok(()))
      else (st.(db := Some(c)), Err(IoFailure))
  }

  /** One call of `query(sql, params)`. */
  function Run(st: StoreState, s: Statement): (r: (StoreState, Result<QueryResult>))
    ensures r.0.writable == st.writable
    ensures r.1.Err? && r.1.error != IoFailure ==> r.0 == st
    ensures r.0.file != st.file ==> r.1.Ok? && r.0.db.Some? && r.0.file == Saved(r.0.db.value.image)
  {
    match st.db
    case None => (st, Err(NotInitialized))
    case Some(c) =>
      match Exec(c, s)
      case Err(e) => (st, Err(e))
      case Ok((next, rows)) => Complete(st, next, rows, s.IsSelect())
  }

  lemma RunSteps(st: StoreState, s: Statement)
    requires st.db.Some? && Exec(st.db.value, s).Ok?
    ensures Run(st, s) == Complete(st, Exec(st.db.value, s).value.0, Exec(st.db.value, s).value.1, s.IsSelect())
  {
  }

  /** After the statement ran: a read resolves with its rows; a write saves the file, then resolves
      with `lastInsertRowid` and `getRowsModified()`. */
  function Complete(st: StoreState, next: Conn, rows: seq<Row>, read: bool): (StoreState, Result<QueryResult>)
  {
    if read then (st.(db := Some(next)), Ok(Rows(rows)))
    else if st.writable then
      (st.(db := Some(next), file := Saved(next.image)), Ok(Written(next.lastInsertRowid, next.rowsModified)))
    else (st.(db := Some(next)), Err(IoFailure))
  }

  /** Before start-up every statement is refused with "Database not initialized". */
  lemma RunBeforeInit(st: StoreState, s: Statement)
    requires st.db.None?
    ensures Run(st, s) == (st, Err(NotInitialized))
    ensures Message(Run(st, s).1.error) == "Database not initialized"
  {
  }

  /** A SELECT changes neither the database nor the file, and yields exactly the rows the table holds. */
  lemma ReadsChangeNothing(st: StoreState, s: Statement)
    requires s.IsSelect()
    ensures Run(st, s).0 == st
    ensures Run(st, s).1.Ok? ==> Run(st, s).1.value.Rows?
    ensures st.db.Some? && st.db.value.image.Db? && Prepares(st.db.value.image.db.catalog, s) && s.AllBindable() ==>
      Run(st, s).1 == Ok(Rows(Select(st.db.value.image.db, s)))
  {
    if st.db.Some? && Exec(st.db.value, s).Ok? {
      SelectKeepsConnection(st.db.value, s);
      RunSteps(st, s);
    }
  }

  /** Executing a SELECT leaves the connection as it was. */
  lemma SelectKeepsConnection(c: Conn, s: Statement)
    requires s.IsSelect() && Exec(c, s).Ok?
    ensures Exec(c, s).value.0 == c
    ensures c.image.Db? && Exec(c, s).value.1 == Select(c.image.db, s)
  {
  }

  /** Every other statement that succeeds leaves the file holding exactly the image in memory. */
  lemma WritesAreSaved(st: StoreState, s: Statement)
    requires !s.IsSelect()
    ensures Run(st, s).1.Ok? ==> Run(st, s).1.value.Written? && Run(st, s).0.file == Saved(Run(st, s).0.db.value.image)
    ensures Run(st, s).1.Ok? <==> st.db.Some? && Exec(st.db.value, s).Ok? && st.writable
  {
  }

  /** After a successful start-up all five tables exist, tables found in the file are kept, the rows
      are those of the file (none when there was no file), and the file is up to date. */
  lemma InitEffect(st: StoreState)
    ensures Initialized(st).1.Ok? <==> Load(st.file).Db? && st.writable
    ensures Initialized(st).1.Ok? ==>
      var after := Initialized(st).0;
      && after.file == Saved(after.db.value.image)
      && (forall n: TableName :: n in after.db.value.image.db.catalog)
      && (forall n :: n in Load(st.file).db.catalog ==> after.db.value.image.db.catalog[n] == Load(st.file).db.catalog[n])
      && after.db.value.image.db == Load(st.file).db.(catalog := CreateTables(Load(st.file).db.catalog))
    ensures st.file == Missing && st.writable ==>
      Initialized(st).1.Ok? && Initialized(st).0.db.value.image.db == EmptyDatabase().(catalog := CreateTables(map[]))
  {
    if Load(st.file).Db? {
      CreateTablesEffect(Load(st.file).db.catalog);
    }
  }

  /** Starting up twice leaves the image as the first start-up left it. */
  lemma InitTwice(st: StoreState)
    requires Initialized(st).1.Ok?
    ensures Initialized(Initialized(st).0).0 == Initialized(st).0
  {
    var d := Load(st.file).db;
    CreateTablesIdempotent(d.catalog);
    assert d.(catalog := CreateTables(d.catalog)).(catalog := CreateTables(CreateTables(d.catalog)))
        == d.(catalog := CreateTables(d.catalog));
  }

  /** `while (stmt.step()) result.push(stmt.getAsObject())`: every row, in the order the statement yields them. */
  method StepAll(rows: seq<Row>) returns (result: seq<Row>)
    ensures result == rows
  {
    result := [];
    var i := 0;
    while i < |rows|
      invariant 0 <= i <= |rows|
      invariant result == rows[..i]
    {
      result := result + [rows[i]];
      i := i + 1;
    }
    assert rows[..i] == rows;
  }

  /** The adapter object: the module-level handle and the snapshot file it manages. */
  class Store {
    var db: Option<Conn>
    var file: FileContent
    const writable: bool

    function State(): StoreState
      reads this
    {
      StoreState(db, file, writable)
    }

    constructor (file: FileContent, writable: bool)
      ensures State() == StoreState(None, file, writable)
    {
      db := None;
      this.file := file;
      this.writable := writable;
    }

    /** `saveDatabase`: export the image and write it to the file. */
    method Save() returns (r: Result<()>)
      requires db.Some?
      modifies this
      ensures db == old(db)
      ensures writable ==> file == Saved(db.value.image) && r == Ok(())
      ensures !writable ==> file == old(file) && r == Err(IoFailure)
    {
      if writable {
        file := Saved(db.value.image);
        r := Ok(());
      } else {
        r := Err(IoFailure);
      }
    }

    /** `initDatabase` */
    method Init() returns (r: Result<()>)
      modifies this
      ensures (State(), r) == Initialized(old(State()))
    {
      var image := Load(file);
      db := Some(Conn(image, 0, 0));
      match image
      case Unreadable =>
        r := Err(NotADatabase);
      case Db(d) =>
        db := Some(Conn(Db(d.(catalog := CreateTables(d.catalog))), 0, 0));
        r := Save();
    }

    /** `query(sql, params)`: the text test picks the path; reads collect the rows step by step,
        writes save the file afterwards. */
    method Query(s: Statement) returns (r: Result<QueryResult>)
      modifies this
      ensures (State(), r) == Run(old(State()), s)
    {
      if db.None? {
        return Err(NotInitialized);
      }
      var step := Exec(db.value, s);
      if step.Err? {
        return Err(step.error);
      }
      RunSteps(State(), s);
      r := Finish(step.value.0, step.value.1, IsRead(s.Text()));
    }

    /** The statement has run: a read hands back its rows, a write saves the file first. */
    method Finish(next: Conn, rows: seq<Row>, read: bool) returns (r: Result<QueryResult>)
      modifies this
      ensures (State(), r) == Complete(old(State()), next, rows, read)
    {
      db := Some(next);
      if read {
        var result := StepAll(rows);
        r := Ok(Rows(result));
      } else {
        var saved := Save();
        if saved.Err? {
          r := Err(saved.error);
        } else {
          r := Ok(Written(next.lastInsertRowid, next.rowsModified));
        }
      }
    }
  }
}
