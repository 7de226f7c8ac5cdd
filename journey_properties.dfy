/** What the journey repository's single-statement operations promise: the id a
    create returns finds the row again, the lookups return the matching rows
    only, and update and delete touch exactly the rows with the given id and
    owner (the latter without cascading to chapters or notes). */
module JourneyProperties {
  import opened Values
  import opened Outcomes
  import opened Schema
  import opened Engine
  import opened Storage
  import opened JourneyModel
  import opened Effects

  // ---------------------------------------------------------------- filtering by key

  lemma {:induction false} FilterNone<T>(s: seq<T>, p: T -> bool)
    requires forall i :: 0 <= i < |s| ==> !p(s[i])
    ensures Filter(s, p) == []
  {
    if s != [] {
      assert forall i :: 0 <= i < |s[1..]| ==> s[1..][i] == s[i + 1];
      FilterNone(s[1..], p);
    }
  }

  lemma SplitAt<T>(s: seq<T>, k: nat)
    requires k < |s|
    ensures s == s[..k] + [s[k]] + s[k + 1..]
  {
  }

  /** A row whose id no other row has is the only one its id selects. */
  lemma KeySelectsOne<T>(rows: seq<Entry<T>>, k: nat)
    requires k < |rows| && forall i :: 0 <= i < |rows| && i != k ==> rows[i].id != rows[k].id
    ensures Filter(rows, KeyIs(SqlInt(rows[k].id))) == [rows[k]]
  {
    var p := KeyIs<T>(SqlInt(rows[k].id));
    var before, after := rows[..k], rows[k + 1..];
    SplitAt(rows, k);
    forall i | 0 <= i < |before| ensures !p(before[i]) {
      assert before[i] == rows[i];
    }
    forall i | 0 <= i < |after| ensures !p(after[i]) {
      assert after[i] == rows[k + 1 + i];
    }
    FilterAround(before, rows[k], after, p);
  }

  /** Only `x` satisfies `p`: filtering keeps `x` alone. */
  lemma FilterAround<T>(before: seq<T>, x: T, after: seq<T>, p: T -> bool)
    requires p(x)
    requires forall i :: 0 <= i < |before| ==> !p(before[i])
    requires forall i :: 0 <= i < |after| ==> !p(after[i])
    ensures Filter(before + [x] + after, p) == [x]
  {
    FilterAppend(before + [x], after, p);
    FilterAppend(before, [x], p);
    FilterNone(before, p);
    FilterNone(after, p);
    FilterSingle(x, p);
  }

  lemma FilterSingle<T>(x: T, p: T -> bool)
    ensures Filter([x], p) == if p(x) then [x] else []
  {
    assert [x][1..] == [];
  }

  /** In a well-formed table every id is held by one row only. */
  lemma IdsUnique<T>(t: Table<T>, k: nat)
    requires WellFormed(t) && k < |t.rows|
    ensures forall i :: 0 <= i < |t.rows| && i != k ==> t.rows[i].id != t.rows[k].id
  {
  }

  /** `WHERE p` selects something exactly when some row satisfies `p`. */
  lemma FilterNonEmpty<T>(s: seq<T>, p: T -> bool)
    ensures |Filter(s, p)| > 0 <==> exists i :: 0 <= i < |s| && p(s[i])
  {
    if |Filter(s, p)| > 0 {
      var r := Filter(s, p);
      assert r[0] in s && p(r[0]);
    }
  }

  // ---------------------------------------------------------------- createJourney and getJourneyById

  /** The last row of a table once its newest row was inserted is the only one its id selects. */
  lemma NewestSelectsItself<T>(t: Table<T>, r: T)
    requires WellFormed(t)
    ensures var u := Insert(t, r);
      Filter(u.rows, KeyIs(SqlInt(u.lastId))) == [Entry(u.lastId, r)]
  {
    var u := Insert(t, r);
    IdsUnique(u, |u.rows| - 1);
    KeySelectsOne(u.rows, |u.rows| - 1);
  }

  /** The id `createJourney` returns finds the row it stored: on a ready adapter whose file can be
      written, and unless `is_public` was given as `null`, the create resolves with the next journey id
      and `getJourneyById` of that id then yields the new row. */
  lemma CreateThenGet(st: StoreState, data: JourneyInput)
    requires Ready(st) && st.writable && data.isPublic != Null
    ensures var (after, r) := CreateJourney(st, data);
      var id := DbOf(st).journeys.lastId + 1;
      && r == Ok(id)
      && GetJourneyById(after, Num(id)) == Ok(Some(JourneyObject(Entry(id, CreatedRow(data)))))
  {
    var after := CreateJourney(st, data).0;
    var t := DbOf(st).journeys;
    CreateStored(st, data);
    assert Ready(after) && DbOf(after).journeys == Insert(t, CreatedRow(data));
    GetNewest(after, t, CreatedRow(data));
  }

  /** On a ready adapter whose file can be written, `createJourney` resolves with the next id and
      leaves the adapter ready, with its row appended to the journeys. */
  lemma CreateStored(st: StoreState, data: JourneyInput)
    requires Ready(st) && st.writable && data.isPublic != Null
    ensures CreateJourney(st, data).1 == Ok(DbOf(st).journeys.lastId + 1)
    ensures Ready(CreateJourney(st, data).0)
    ensures DbOf(CreateJourney(st, data).0).journeys == Insert(DbOf(st).journeys, CreatedRow(data))
  {
    var d := DbOf(st);
    var t := Insert(d.journeys, CreatedRow(data));
    var next := Conn(Db(d.(journeys := t)), t.lastId, 1);
    CreateOutcome(st, data);
    AppliedReady(st, next);
  }

  /** `getJourneyById` of the newest journey's id yields that journey. */
  lemma GetNewest(st: StoreState, t: Table<Journey>, row: Journey)
    requires Ready(st) && WellFormed(t) && DbOf(st).journeys == Insert(t, row)
    ensures GetJourneyById(st, Num(t.lastId + 1)) == Ok(Some(JourneyObject(Entry(t.lastId + 1, row))))
  {
    ConformsPrepares(DbOf(st).catalog, SelectJourneyById(Num(t.lastId + 1)));
    ReadOutcome(st, SelectJourneyById(Num(t.lastId + 1)));
    NewestSelectsItself(t, row);
  }

  /** `createJourney` before start-up, or on a file that is not a database, is refused and changes nothing. */
  lemma CreateRefused(st: StoreState, data: JourneyInput)
    ensures st.db.None? ==> CreateJourney(st, data) == (st, Err(NotInitialized))
    ensures st.db.Some? && st.db.value.image.Unreadable? ==> CreateJourney(st, data) == (st, Err(NotADatabase))
  {
    Refused(st, CreateStatement(data));
  }

  /** The row a create stores, as it reads back: the title (or "Untitled Journey"), the description
      (or ''), `is_public` true unless given (read back as 1), and the owner (or NULL). */
  lemma CreatedFields(id: int, data: JourneyInput)
    ensures var o := JourneyObject(Entry(id, CreatedRow(data)));
      && Get(o, Id) == Num(id)
      && (data.title.Str? && data.title.s != "" ==> Get(o, Title) == data.title)
      && (!Truthy(data.title) ==> Get(o, Title) == Str("Untitled Journey"))
      && (data.description.Str? ==> Get(o, Description) == data.description)
      && (!Truthy(data.description) ==> Get(o, Description) == Str(""))
      && (data.isPublic.Undefined? ==> Get(o, IsPublic) == Num(1))
      && (data.isPublic.Bool? ==> Get(o, IsPublic) == Num(if data.isPublic.b then 1 else 0))
      && (data.userId.Num? && data.userId.n != 0 ==> Get(o, UserId) == data.userId)
      && (!Truthy(data.userId) ==> Get(o, UserId) == Null)
  {
  }

  /** `getJourneyById` of a stored row's id yields that row. */
  lemma GetByIdFinds(st: StoreState, k: nat)
    requires Ready(st) && k < |DbOf(st).journeys.rows|
    ensures var e := DbOf(st).journeys.rows[k];
      GetJourneyById(st, Num(e.id)) == Ok(Some(JourneyObject(e)))
  {
    var rows := DbOf(st).journeys.rows;
    ConformsPrepares(DbOf(st).catalog, SelectJourneyById(Num(rows[k].id)));
    ReadOutcome(st, SelectJourneyById(Num(rows[k].id)));
    IdsUnique(DbOf(st).journeys, k);
    KeySelectsOne(rows, k);
  }

  /** `getJourneyById` of an id no row has yields `undefined`, not an error. */
  lemma GetByIdMissing(st: StoreState, id: JsValue)
    requires Ready(st) && Bindable(id)
    requires forall k :: 0 <= k < |DbOf(st).journeys.rows| ==> Bind(id) != SqlInt(DbOf(st).journeys.rows[k].id)
    ensures GetJourneyById(st, id) == Ok(None)
  {
    ConformsPrepares(DbOf(st).catalog, SelectJourneyById(id));
    ReadOutcome(st, SelectJourneyById(id));
    FilterNone(DbOf(st).journeys.rows, KeyIs(Bind(id)));
  }

  /** Reads fail only before start-up, on a file that is not a database, or on an `undefined` id. */
  lemma GetByIdRefused(st: StoreState, id: JsValue)
    ensures st.db.None? ==> GetJourneyById(st, id) == Err(NotInitialized)
    ensures st.db.Some? && st.db.value.image.Unreadable? ==> GetJourneyById(st, id) == Err(NotADatabase)
    ensures Ready(st) && !Bindable(id) ==> GetJourneyById(st, id) == Err(BindError)
  {
    Refused(st, SelectJourneyById(id));
  }

  // ---------------------------------------------------------------- getAllJourneys

  /** `listed` lists exactly the journeys of `rows` whose `user_id` equals `userId`, each with that owner,
      in ascending id. */
  predicate ListsOwned(rows: seq<Entry<Journey>>, userId: JsValue, listed: seq<Row>)
    requires Bindable(userId)
  {
    ListsOnlyOwner(userId, listed) && ListsOwnedRows(rows, userId, listed)
    && ListsAllOwned(rows, userId, listed) && IdsIncrease(listed)
  }

  /** Every listed row has the owner it was selected by (a boolean owner reads back as a number). */
  predicate ListsOnlyOwner(userId: JsValue, listed: seq<Row>)
  {
    forall row :: row in listed ==> Get(row, UserId) == userId || userId.Bool?
  }

  /** Every listed row is the object of a stored journey owned by `userId`. */
  predicate ListsOwnedRows(rows: seq<Entry<Journey>>, userId: JsValue, listed: seq<Row>)
    requires Bindable(userId)
  {
    forall row :: row in listed ==> exists e :: e in rows && SqlEq(e.row.userId, Bind(userId)) && row == JourneyObject(e)
  }

  /** Every stored journey owned by `userId` is listed. */
  predicate ListsAllOwned(rows: seq<Entry<Journey>>, userId: JsValue, listed: seq<Row>)
    requires Bindable(userId)
  {
    forall e :: e in rows && SqlEq(e.row.userId, Bind(userId)) ==> JourneyObject(e) in listed
  }

  /** The listed rows carry numeric ids in ascending order. */
  predicate IdsIncrease(listed: seq<Row>)
  {
    forall i, k :: 0 <= i < k < |listed| ==>
      Get(listed[i], Id).Num? && Get(listed[k], Id).Num? && Get(listed[i], Id).n < Get(listed[k], Id).n
  }

  /** The journeys listed for an owner: exactly the stored journeys whose `user_id` equals it, in
      table order (ascending id); `null` matches nothing. */
  lemma OwnerListing(st: StoreState, userId: JsValue)
    requires Ready(st) && Bindable(userId)
    ensures GetAllJourneys(st, userId).Ok?
    ensures ListsOwned(DbOf(st).journeys.rows, userId, GetAllJourneys(st, userId).value)
    ensures userId == Null ==> GetAllJourneys(st, userId) == Ok([])
  {
    OwnerRows(st, userId);
    OwnedRows(DbOf(st).journeys.rows, userId);
    if userId == Null {
      NullOwnsNothing(DbOf(st).journeys.rows);
    }
  }

  /** The owner filter over rows in ascending id lists the rows it should. */
  lemma OwnedRows(rows: seq<Entry<Journey>>, userId: JsValue)
    requires Bindable(userId) && Ascending(rows)
    ensures ListsOwned(rows, userId, Objects(Filter(rows, OwnedBy(Bind(userId))), JourneyObject))
  {
    OwnedRowsSound(rows, userId);
    OwnedRowsComplete(rows, userId);
    OwnedRowsInOrder(rows, userId);
  }

  /** On a ready adapter the owner listing is the owner filter over the stored journeys. */
  lemma OwnerRows(st: StoreState, userId: JsValue)
    requires Ready(st) && Bindable(userId)
    ensures GetAllJourneys(st, userId) == Ok(Objects(Filter(DbOf(st).journeys.rows, OwnedBy(Bind(userId))), JourneyObject))
  {
    ConformsPrepares(DbOf(st).catalog, SelectJourneysByOwner(userId));
    ReadOutcome(st, SelectJourneysByOwner(userId));
  }

  /** `user_id = NULL` selects no row. */
  lemma {:induction false} NullOwnsNothing(rows: seq<Entry<Journey>>)
    ensures Filter(rows, OwnedBy(SqlNull)) == []
  {
    if rows != [] {
      NullOwnsNothing(rows[1..]);
    }
  }

  /** Rows in ascending id are listed in ascending id. */
  lemma OwnedRowsInOrder(rows: seq<Entry<Journey>>, userId: JsValue)
    requires Bindable(userId) && Ascending(rows)
    ensures IdsIncrease(Objects(Filter(rows, OwnedBy(Bind(userId))), JourneyObject))
  {
    FilterKeepsOrder(rows, OwnedBy(Bind(userId)));
    JourneysInOrder(Filter(rows, OwnedBy(Bind(userId))));
  }

  /** Every object the owner filter lists is that of a stored row owned by `userId`. */
  lemma OwnedRowsSound(rows: seq<Entry<Journey>>, userId: JsValue)
    requires Bindable(userId)
    ensures ListsOnlyOwner(userId, Objects(Filter(rows, OwnedBy(Bind(userId))), JourneyObject))
    ensures ListsOwnedRows(rows, userId, Objects(Filter(rows, OwnedBy(Bind(userId))), JourneyObject))
  {
    var p := OwnedBy(Bind(userId));
    forall row | row in Objects(Filter(rows, p), JourneyObject)
      ensures exists e :: e in rows && SqlEq(e.row.userId, Bind(userId)) && row == JourneyObject(e)
      ensures Get(row, UserId) == userId || userId.Bool?
    {
      ObjectsOfFilter(rows, p, JourneyObject, row);
      var e :| e in rows && p(e) && row == JourneyObject(e);
      assert SqlEq(e.row.userId, Bind(userId));
      OwnerReadsBack(e, userId);
    }
  }

  /** Every stored row owned by `userId` is listed. */
  lemma OwnedRowsComplete(rows: seq<Entry<Journey>>, userId: JsValue)
    requires Bindable(userId)
    ensures ListsAllOwned(rows, userId, Objects(Filter(rows, OwnedBy(Bind(userId))), JourneyObject))
  {
    var p := OwnedBy(Bind(userId));
    forall e | e in rows && SqlEq(e.row.userId, Bind(userId))
      ensures JourneyObject(e) in Objects(Filter(rows, p), JourneyObject)
    {
      assert p(e);
      ObjectsOfFilter(rows, p, JourneyObject, JourneyObject(e));
    }
  }

  /** An owned row reads back with the owner it was selected by (a boolean owner reads back as a number). */
  lemma OwnerReadsBack(e: Entry<Journey>, userId: JsValue)
    requires Bindable(userId) && SqlEq(e.row.userId, Bind(userId))
    ensures Get(JourneyObject(e), UserId) == userId || userId.Bool?
  {
  }

  /** The objects of a filter are exactly the objects of the rows the predicate selects. */
  lemma ObjectsOfFilter<T>(rows: seq<Entry<T>>, p: Entry<T> -> bool, f: Entry<T> -> Row, row: Row)
    ensures row in Objects(Filter(rows, p), f) <==> exists e :: e in rows && p(e) && row == f(e)
  {
    var kept := Filter(rows, p);
    var listed := Objects(kept, f);
    if row in listed {
      var j :| 0 <= j < |listed| && listed[j] == row;
      assert kept[j] in rows && p(kept[j]) && row == f(kept[j]);
    }
    if exists e :: e in rows && p(e) && row == f(e) {
      var e :| e in rows && p(e) && row == f(e);
      var i :| 0 <= i < |rows| && rows[i] == e;
      assert rows[i] in kept;
      var j :| 0 <= j < |kept| && kept[j] == e;
      assert listed[j] == row;
    }
  }

  /** Journey objects of rows in ascending id carry ascending ids. */
  lemma JourneysInOrder(kept: seq<Entry<Journey>>)
    requires Ascending(kept)
    ensures IdsIncrease(Objects(kept, JourneyObject))
  {
    var listed := Objects(kept, JourneyObject);
    forall i, k | 0 <= i < k < |listed|
      ensures Get(listed[i], Id).Num? && Get(listed[k], Id).Num? && Get(listed[i], Id).n < Get(listed[k], Id).n
    {
      assert listed[i] == JourneyObject(kept[i]) && listed[k] == JourneyObject(kept[k]);
      assert Get(listed[i], Id) == Num(kept[i].id) && Get(listed[k], Id) == Num(kept[k].id);
      assert kept[i].id < kept[k].id;
    }
    assert IdsIncrease(listed);
  }

  // ---------------------------------------------------------------- updateJourney and deleteJourney

  /** Some stored journey has this id and this owner. */
  predicate Matches(d: Database, id: SqlValue, owner: SqlValue)
  {
    exists i :: 0 <= i < |d.journeys.rows| && IdAndOwner(id, owner)(d.journeys.rows[i])
  }

  /** `updateJourney` on a ready adapter, every field given: a NULL title or `is_public` is refused only
      when some row matches id and owner; otherwise exactly the matching rows take the new title,
      description and visibility (their owner unchanged), and the result says whether one matched. */
  lemma UpdateOutcome(st: StoreState, id: JsValue, data: JourneyInput)
    requires Ready(st) && Bindable(id) && Bindable(data.title) && Bindable(data.description)
    requires Bindable(data.isPublic) && Bindable(data.userId)
    ensures var d := DbOf(st);
      var matched := Matches(d, Bind(id), Bind(data.userId));
      var (after, r) := UpdateJourney(st, id, data);
      if matched && Bind(data.title) == SqlNull then (after, r) == (st, Err(NotNullViolation("journeys.title")))
      else if matched && Bind(data.isPublic) == SqlNull then (after, r) == (st, Err(NotNullViolation("journeys.is_public")))
      else
        && r == (if st.writable then Ok(matched) else Err(IoFailure))
        && Ready(after) && (st.writable ==> Synced(after)) && (!st.writable ==> after.file == st.file)
        && DbOf(after) == d.(journeys := d.journeys.(rows := UpdateWhere(d.journeys.rows, IdAndOwner(Bind(id), Bind(data.userId)),
                                                                         Bind(data.title), Bind(data.description), Bind(data.isPublic))))
  {
    ConformsPrepares(DbOf(st).catalog, UpdateOwnedJourney(data.title, data.description, data.isPublic, id, data.userId));
    AffectedOutcome(st, UpdateOwnedJourney(data.title, data.description, data.isPublic, id, data.userId));
    FilterNonEmpty(DbOf(st).journeys.rows, IdAndOwner(Bind(id), Bind(data.userId)));
  }

  /** A row the update does not match is left exactly as it was; a matched row keeps its id and its owner. */
  lemma UpdateTouchesOnlyMatches(rows: seq<Entry<Journey>>, hit: Entry<Journey> -> bool,
                                 title: SqlValue, description: SqlValue, isPublic: SqlValue, i: nat)
    requires i < |rows|
    ensures var u := UpdateWhere(rows, hit, title, description, isPublic)[i];
      && (!hit(rows[i]) ==> u == rows[i])
      && (hit(rows[i]) ==> u.id == rows[i].id && u.row == Journey(title, description, isPublic, rows[i].row.userId))
  {
  }

  /** `updateJourney` binds all five values as given: any field left `undefined` fails the statement,
      and nothing changes. */
  lemma UpdateNeedsEveryField(st: StoreState, id: JsValue, data: JourneyInput)
    requires Ready(st)
    requires !Bindable(id) || !Bindable(data.title) || !Bindable(data.description)
          || !Bindable(data.isPublic) || !Bindable(data.userId)
    ensures UpdateJourney(st, id, data) == (st, Err(BindError))
  {
    var s := UpdateOwnedJourney(data.title, data.description, data.isPublic, id, data.userId);
    assert !s.AllBindable() by {
      assert s.Params() == [data.title, data.description, data.isPublic, id, data.userId];
    }
    Refused(st, s);
  }

  /** `deleteJourney` on a ready adapter: exactly the rows matching id and owner are removed, the
      chapters and notes stay as they were (no cascade), and the result says whether one matched. */
  lemma DeleteOutcome(st: StoreState, id: JsValue, userId: JsValue)
    requires Ready(st) && Bindable(id) && Bindable(userId)
    ensures var d := DbOf(st);
      var (after, r) := DeleteJourney(st, id, userId);
      && r == (if st.writable then Ok(Matches(d, Bind(id), Bind(userId))) else Err(IoFailure))
      && Ready(after) && (st.writable ==> Synced(after)) && (!st.writable ==> after.file == st.file)
      && DbOf(after) == d.(journeys := d.journeys.(rows := Filter(d.journeys.rows, NotIdAndOwner(Bind(id), Bind(userId)))))
      && DbOf(after).chapters == d.chapters && DbOf(after).notes == d.notes
  {
    ConformsPrepares(DbOf(st).catalog, DeleteOwnedJourney(id, userId));
    AffectedOutcome(st, DeleteOwnedJourney(id, userId));
    FilterNonEmpty(DbOf(st).journeys.rows, IdAndOwner(Bind(id), Bind(userId)));
  }

  /** The rows a delete keeps: a row survives exactly when it does not match id and owner. */
  lemma DeleteKeepsTheRest(rows: seq<Entry<Journey>>, id: SqlValue, owner: SqlValue)
    ensures forall e :: e in Filter(rows, NotIdAndOwner(id, owner)) <==> e in rows && !IdAndOwner(id, owner)(e)
  {
    var kept := Filter(rows, NotIdAndOwner(id, owner));
    forall e | e in kept ensures e in rows && !IdAndOwner(id, owner)(e) {
      var j :| 0 <= j < |kept| && kept[j] == e;
    }
    forall e | e in rows && !IdAndOwner(id, owner)(e) ensures e in kept {
      var i :| 0 <= i < |rows| && rows[i] == e;
      assert NotIdAndOwner(id, owner)(rows[i]);
    }
  }

  // ---------------------------------------------------------------- getAllPublicJourneys

  /** The public listing: the public journeys joined with their owners, so a row is listed exactly when
      it joins a stored journey with `is_public = 1` to the stored user its `user_id` names; before
      start-up, on a file that is not a database, or on a schema without the columns the join names,
      the caller sees only "Error fetching public journeys". */
  lemma PublicListing(st: StoreState)
    ensures Opened(st) && Prepares(DbOf(st).catalog, SelectPublicJourneys) ==>
      GetAllPublicJourneys(st) == Ok(PublicJoin(DbOf(st).journeys.rows, DbOf(st).users.rows))
    ensures !(Opened(st) && Prepares(DbOf(st).catalog, SelectPublicJourneys)) ==> GetAllPublicJourneys(st) == Err(PublicFetchFailed)
    ensures Ready(st) ==> GetAllPublicJourneys(st) == Ok(PublicJoin(DbOf(st).journeys.rows, DbOf(st).users.rows))
    ensures Ready(st) ==> forall row :: row in GetAllPublicJourneys(st).value <==>
      exists j, u :: j in DbOf(st).journeys.rows && u in DbOf(st).users.rows && Joins(j, u, row)
    ensures GetAllPublicJourneys(st).Err? ==> Message(GetAllPublicJourneys(st).error) == "Error fetching public journeys"
  {
    Refused(st, SelectPublicJourneys);
    if Ready(st) {
      forall row ensures row in PublicJoin(DbOf(st).journeys.rows, DbOf(st).users.rows) <==>
        exists j, u :: j in DbOf(st).journeys.rows && u in DbOf(st).users.rows && Joins(j, u, row)
      {
        PublicJoinMembers(DbOf(st).journeys.rows, DbOf(st).users.rows, row);
      }
    }
    if Opened(st) && Prepares(DbOf(st).catalog, SelectPublicJourneys) {
      ReadOutcome(st, SelectPublicJourneys);
    }
    if Ready(st) {
      PublicRows(st);
    }
  }

  /** `row` is the join row of journey `j` and user `u`: the journey has `is_public = 1` and the user's
      id equals the journey's `user_id`. */
  predicate Joins(j: Entry<Journey>, u: Entry<User>, row: Row)
  {
    SqlEq(j.row.isPublic, SqlInt(1)) && SqlEq(SqlInt(u.id), j.row.userId) && row == PublicObject(j, u)
  }

  /** A row is in the public listing exactly when it is the join row of a stored journey and a stored
      user: a journey that is private, or whose owner has no user row, is never listed. */
  lemma {:induction false} PublicJoinMembers(js: seq<Entry<Journey>>, users: seq<Entry<User>>, row: Row)
    ensures row in PublicJoin(js, users) <==> exists j, u :: j in js && u in users && Joins(j, u, row)
  {
    if js != [] {
      assert PublicJoin(js, users) == JoinHead(js[0], users) + PublicJoin(js[1..], users);
      PublicJoinMembers(js[1..], users, row);
      JoinHeadMembers(js[0], users, row);
      if exists j, u :: j in js && u in users && Joins(j, u, row) {
        var j, u :| j in js && u in users && Joins(j, u, row);
        if j != js[0] {
          assert j in js[1..];
        }
      }
    }
  }

  /** The rows the join produces for one journey. */
  function JoinHead(j: Entry<Journey>, users: seq<Entry<User>>): seq<Row>
  {
    var owners := if SqlEq(j.row.isPublic, SqlInt(1)) then Filter(users, KeyIs(j.row.userId)) else [];
    Objects(owners, u => PublicObject(j, u))
  }

  lemma JoinHeadMembers(j: Entry<Journey>, users: seq<Entry<User>>, row: Row)
    ensures row in JoinHead(j, users) <==> exists u :: u in users && Joins(j, u, row)
  {
    if SqlEq(j.row.isPublic, SqlInt(1)) {
      var owners := Filter(users, KeyIs(j.row.userId));
      var head := Objects(owners, u => PublicObject(j, u));
      assert JoinHead(j, users) == head;
      if row in head {
        var i :| 0 <= i < |head| && head[i] == row;
        OwnerJoins(j, users, owners[i], row);
      }
      if exists u :: u in users && Joins(j, u, row) {
        var u :| u in users && Joins(j, u, row);
        var i := OwnerIndex(j, users, u);
        assert head[i] == row;
      }
    }
  }

  lemma OwnerJoins(j: Entry<Journey>, users: seq<Entry<User>>, u: Entry<User>, row: Row)
    requires SqlEq(j.row.isPublic, SqlInt(1)) && u in Filter(users, KeyIs(j.row.userId)) && row == PublicObject(j, u)
    ensures u in users && Joins(j, u, row)
  {
    var owners := Filter(users, KeyIs(j.row.userId));
    var i :| 0 <= i < |owners| && owners[i] == u;
    assert KeyIs(j.row.userId)(owners[i]);
  }

  lemma OwnerIndex(j: Entry<Journey>, users: seq<Entry<User>>, u: Entry<User>) returns (i: nat)
    requires u in users && SqlEq(SqlInt(u.id), j.row.userId)
    ensures i < |Filter(users, KeyIs(j.row.userId))| && Filter(users, KeyIs(j.row.userId))[i] == u
  {
    var owners := Filter(users, KeyIs(j.row.userId));
    var k :| 0 <= k < |users| && users[k] == u;
    assert KeyIs(j.row.userId)(users[k]);
    assert u in owners;
    i :| 0 <= i < |owners| && owners[i] == u;
  }
}
