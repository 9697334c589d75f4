/**
 The user store over the `users` table: internal/domains/user/store/userdb/userdb.go,
 with the constraints of internal/migrate/sql/20250914214924_init.up.sql.
 */
module UserDb {
  import opened Wrappers
  import opened Roles
  import RC = RoleColumn
  import opened Users
  import opened Order
  import opened Filter
  import opened Sql
  import opened Paging
  import P = Page

  /** The table, by primary key. */
  type Table = map<Uuid, Row>

  datatype StoreError = ErrDuplicatedEmail | ErrUserNotFound | ErrOther

  // ----- the database's side of INSERT, UPDATE and DELETE

  const UNIQUE_VIOLATION := "23505"

  /** The class of the errors with which a value is refused: too long, or not an array. */
  const DATA_EXCEPTION := "22000"

  predicate EmailTakenByOther(t: Table, id: Uuid, email: string) {
    exists k :: k in t && k != id && t[k].email == email
  }

  /** The SQLSTATE with which an INSERT of the written row fails, if it does. */
  function InsertFailure(t: Table, written: Option<Row>): (failure: Option<string>)
    ensures failure.None? ==> written.Some?
  {
    if written.None? then Some(DATA_EXCEPTION)
    else
      var row := written.value;
      if row.id in t || EmailTakenByOther(t, row.id, row.email) then Some(UNIQUE_VIOLATION)
      else None
  }

  /** The SQLSTATE with which an UPDATE by id fails, if it does. Values are refused while the statement is
      planned for them, before any row is looked for; a missing id updates no row. */
  function UpdateFailure(t: Table, written: Option<Row>): (failure: Option<string>)
    ensures failure.None? ==> written.Some?
  {
    if written.None? then Some(DATA_EXCEPTION)
    else
      var row := written.value;
      if row.id !in t then None
      else if EmailTakenByOther(t, row.id, row.email) then Some(UNIQUE_VIOLATION)
      else None
  }

  /** The UPDATE statement sets every column but `id` and `created_at`. */
  function Updated(t: Table, row: Row): Table {
    if row.id in t then t[row.id := row.(createdAt := t[row.id].createdAt)] else t
  }

  function ErrorOf(sqlstate: string): StoreError {
    if sqlstate == UNIQUE_VIOLATION then ErrDuplicatedEmail else ErrOther
  }

  // ----- what each store operation does to the table

  function AfterCreate(t: Table, usr: User): (Table, Option<StoreError>) {
    match InsertFailure(t, Written(usr))
    case Some(code) => (t, Some(ErrorOf(code)))
    case None => (t[usr.id := Written(usr).value], None)
  }

  function AfterUpdate(t: Table, usr: User): (Table, Option<StoreError>) {
    match UpdateFailure(t, Written(usr))
    case Some(code) => (t, Some(ErrorOf(code)))
    case None => (Updated(t, Written(usr).value), None)
  }

  function AfterDelete(t: Table, usr: User): Table {
    t - {usr.id}
  }

  function Read(rt: RoleTable, row: Row): Result<User, StoreError> {
    match ReadBack(rt, row)
    case None => Err(ErrOther)
    case Some(u) => Ok(u)
  }

  function Found(rt: RoleTable, t: Table, id: Uuid): Result<User, StoreError> {
    if id in t then Read(rt, t[id]) else Err(ErrUserNotFound)
  }

  /** What every write keeps: rows are filed under their id, and emails are unique. */
  ghost predicate Consistent(t: Table) {
    && (forall id :: id in t ==> t[id].id == id)
    && (forall a, b :: a in t && b in t && t[a].email == t[b].email ==> a == b)
  }

  /** Every row is in the form that a write of registered roles leaves it in. */
  ghost predicate AllCanonical(rt: RoleTable, t: Table) {
    forall id :: id in t ==> Canonical(rt, t[id])
  }

  /** On a consistent and canonical table every row reads back, under its own id and email. */
  lemma StoredReads(rt: RoleTable, t: Table, id: Uuid)
    requires id in t
    ensures RC.Faithful(rt) && Consistent(t) && AllCanonical(rt, t) ==>
              && ReadBack(rt, t[id]).Some?
              && ReadBack(rt, t[id]).value.id == id && ReadBack(rt, t[id]).value.email.address == t[id].email
  {
    if RC.Faithful(rt) && Consistent(t) && AllCanonical(rt, t) {
      ReadThenWrite(rt, t[id]);
    }
  }

  /** What INSERT answers: the duplicate error exactly for a writable user whose id or stored email is there,
      another exactly for a user that cannot be written. */
  lemma CreateAnswers(t: Table, usr: User)
    ensures var err, written := AfterCreate(t, usr).1, Written(usr);
            && (err == Some(ErrDuplicatedEmail) <==>
                written.Some? && (usr.id in t || exists k :: k in t && t[k].email == written.value.email))
            && (err == Some(ErrOther) <==> written.None?)
            && err != Some(ErrUserNotFound)
            && (err.Some? ==> AfterCreate(t, usr).0 == t)
  {
  }

  /** What UPDATE answers: the duplicate error exactly if another row has the stored email. */
  lemma UpdateAnswers(t: Table, usr: User)
    ensures var err, written := AfterUpdate(t, usr).1, Written(usr);
            && (err == Some(ErrDuplicatedEmail) <==>
                written.Some? && usr.id in t && exists k :: k in t && k != usr.id && t[k].email == written.value.email)
            && (err == Some(ErrOther) <==> written.None?)
            && err != Some(ErrUserNotFound)
            && (err.Some? || usr.id !in t ==> AfterUpdate(t, usr).0 == t)
  {
  }

  ghost function RowsOf(t: Table): set<Row> {
    set id | id in t :: t[id]
  }

  /** On a consistent table, distinct rows have distinct emails. */
  lemma ConsistentEmails(t: Table)
    requires Consistent(t)
    ensures UniqueEmails(RowsOf(t))
  {
  }

  function ScanRows(rt: RoleTable, rows: seq<Row>): Option<seq<User>> {
    if forall i :: 0 <= i < |rows| ==> ReadBack(rt, rows[i]).Some?
    then Some(seq(|rows|, i requires 0 <= i < |rows| => ReadBack(rt, rows[i]).value))
    else None
  }

  lemma ScansTo(rt: RoleTable, rows: seq<Row>, users: seq<User>)
    requires |users| == |rows| && forall i :: 0 <= i < |rows| ==> ReadBack(rt, rows[i]) == Some(users[i])
    ensures ScanRows(rt, rows) == Some(users)
  {
    assert ScanRows(rt, rows).value == users;
  }

  /** The users are scanned from the requested page of the matching rows, in the order asked for. */
  ghost predicate ScannedPage(rt: RoleTable, coll: Collation, table: set<Row>, f: QueryFilter, order: Field, page: P.Page, users: seq<User>)
    requires TotalOrder(coll) && ParsedOrder(order) && page.rows >= 0 && P.Offset(page) >= 0
  {
    exists rows ::
      && PageOf(coll, table, f, order, P.Offset(page), page.rows, rows)
      && InOrder(coll, order, rows) && ScanRows(rt, rows) == Some(users)
  }

  lemma ReplyScanned(
      rt: RoleTable, coll: Collation, table: set<Row>, f: QueryFilter, order: Field, page: P.Page, reply: Reply, users: seq<User>)
    requires TotalOrder(coll) && ParsedOrder(order) && page.rows >= 0 && P.Offset(page) >= 0
    requires Admissible(coll, table, SelectText(f, order), QueryParams(f, page), reply)
    requires reply.Rows? && ScanRows(rt, reply.rows) == Some(users)
    ensures ScannedPage(rt, coll, table, f, order, page, users)
  {
    QueryMeans(coll, table, f, order, page, reply);
  }

  lemma ScanFails(rt: RoleTable, rows: seq<Row>, i: nat)
    requires i < |rows| && ReadBack(rt, rows[i]).None?
    ensures ScanRows(rt, rows).None?
  {
  }

  /** `Store`: the table, the role registry its scans use, and the database that answers its queries. */
  class Store {
    var users: Table
    const roleTable: RoleTable
    const coll: Collation
    const db: Engine

    constructor (roleTable: RoleTable, coll: Collation, db: Engine)
      ensures users == map[] && this.roleTable == roleTable && this.coll == coll && this.db == db
    {
      users := map[];
      this.roleTable, this.coll, this.db := roleTable, coll, db;
    }

    method Create(usr: User) returns (err: Option<StoreError>)
      modifies this`users
      ensures (users, err) == AfterCreate(old(users), usr)
    {
      var written := Stored(FromBusUser(usr));
      var failure := InsertFailure(users, written);
      if failure.Some? {
        if failure.value == UNIQUE_VIOLATION {
          return Some(ErrDuplicatedEmail);
        }
        return Some(ErrOther);
      }
      users := users[usr.id := written.value];
      err := None;
    }

    method Update(usr: User) returns (err: Option<StoreError>)
      modifies this`users
      ensures (users, err) == AfterUpdate(old(users), usr)
    {
      var written := Stored(FromBusUser(usr));
      var failure := UpdateFailure(users, written);
      if failure.Some? {
        if failure.value == UNIQUE_VIOLATION {
          return Some(ErrDuplicatedEmail);
        }
        return Some(ErrOther);
      }
      users := Updated(users, written.value);
      err := None;
    }

    method Delete(usr: User)
      modifies this`users
      ensures users == AfterDelete(old(users), usr)
    {
      users := users - {FromBusUser(usr).id};
    }

    method QueryByID(id: Uuid) returns (r: Result<User, StoreError>)
      ensures r == Found(roleTable, users, id)
      ensures id !in users ==> r == Err(ErrUserNotFound)
      ensures id in users ==>
                if ReadBack(roleTable, users[id]).Some? then r == Ok(ReadBack(roleTable, users[id]).value) else r == Err(ErrOther)
    {
      if id !in users {
        return Err(ErrUserNotFound);
      }
      r := Read(roleTable, users[id]);
    }

    method QueryByEmail(email: MailAddress) returns (r: Result<User, StoreError>)
      ensures r == Err(ErrUserNotFound) <==> forall id :: id in users ==> users[id].email != email.address
      ensures r != Err(ErrUserNotFound) ==>
                exists id :: id in users && users[id].email == email.address &&
                             if r.Ok? then ReadBack(roleTable, users[id]) == Some(r.value)
                             else r == Err(ErrOther) && ReadBack(roleTable, users[id]).None?
      ensures RC.Faithful(roleTable) && Consistent(users) && AllCanonical(roleTable, users) ==>
                && (r.Ok? <==> exists id :: id in users && users[id].email == email.address)
                && (r.Ok? ==>
                      && r.value.id in users && ReadBack(roleTable, users[r.value.id]) == Some(r.value)
                      && users[r.value.id].email == r.value.email.address == email.address)
    {
      if id :| id in users && users[id].email == email.address {
        r := Read(roleTable, users[id]);
        StoredReads(roleTable, users, id);
      } else {
        r := Err(ErrUserNotFound);
      }
    }

    /** A successful query is a scanned page of some listing of the rows that meet the filter. */
    method Query(tick: nat, f: QueryFilter, orderBy: Field, page: P.Page) returns (r: Result<seq<User>, StoreError>)
      requires Conforms(coll, db)
      ensures orderBy.name !in {"name", "email", "createdAt", "updatedAt"} ==> r.Err?
      ensures r.Ok? && ParsedOrder(orderBy) && page.rows >= 0 && P.Offset(page) >= 0 ==>
                ScannedPage(roleTable, coll, RowsOf(users), f, orderBy, page, r.value)
      ensures orderBy.name in ORDER_BY_COLUMNS ==>
                var reply := db(tick, RowsOf(users), SelectText(f, orderBy), QueryParams(f, page));
                r == (if !reply.Rows? || ScanRows(roleTable, reply.rows).None? then Err(ErrOther)
                      else Ok(ScanRows(roleTable, reply.rows).value))
    {
      var buf := SelectStatement(f, orderBy, page);
      if buf == null {
        return Err(ErrOther);
      }
      var table := set id | id in users :: users[id];
      var reply := db(tick, table, buf.text, buf.data);
      if !reply.Rows? {
        return Err(ErrOther);
      }
      r := ScanAll(reply.rows);
      assert Admissible(coll, table, buf.text, buf.data, reply);
      if r.Ok? && ParsedOrder(orderBy) && page.rows >= 0 && P.Offset(page) >= 0 {
        ReplyScanned(roleTable, coll, table, f, orderBy, page, reply, r.value);
      }
    }

    /** The statement and parameters of a page query; none for a field that cannot be ordered by. */
    method SelectStatement(f: QueryFilter, orderBy: Field, page: P.Page) returns (buf: StatementBuffer?)
      ensures buf == null <==> orderBy.name !in {"name", "email", "createdAt", "updatedAt"}
      ensures buf != null ==> fresh(buf) && buf.text == SelectText(f, orderBy) && buf.data == QueryParams(f, page)
    {
      var b := new StatementBuffer(SELECT_PREFIX, PageParams(page));
      ApplyFilters(f, b);
      var orderClause := OrderByClause(orderBy);
      if orderClause.None? {
        return null;
      }
      b.WriteString(orderClause.value);
      b.WriteString(PAGING);
      buf := b;
    }

    /** The row loop: scan each row and map it to a user, giving up at the first that does not scan. */
    method ScanAll(rows: seq<Row>) returns (r: Result<seq<User>, StoreError>)
      ensures r == (if ScanRows(roleTable, rows).None? then Err(ErrOther) else Ok(ScanRows(roleTable, rows).value))
    {
      var busUsers: seq<User> := [];
      var i := 0;
      while i < |rows|
        invariant 0 <= i <= |rows| && |busUsers| == i
        invariant forall j :: 0 <= j < i ==> ReadBack(roleTable, rows[j]) == Some(busUsers[j])
      {
        var usr := ReadBack(roleTable, rows[i]);
        if usr.None? {
          ScanFails(roleTable, rows, i);
          return Err(ErrOther);
        }
        busUsers := busUsers + [usr.value];
        i := i + 1;
      }
      ScansTo(roleTable, rows, busUsers);
      r := Ok(busUsers);
    }

    method Count(tick: nat, f: QueryFilter) returns (n: nat)
      requires Conforms(coll, db)
      ensures n == |Meeting(RowsOf(users), f)|
    {
      var buf := new StatementBuffer(COUNT_PREFIX, map[]);
      ApplyFilters(f, buf);
      var table := set id | id in users :: users[id];
      var reply := db(tick, table, buf.text, buf.data);
      assert Admissible(coll, table, buf.text, buf.data, reply);
      CountMeans(coll, table, f, reply);
      n := reply.n;
    }
  }
}
