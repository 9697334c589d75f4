/**
 The user entity, the `users` row, and the mapping between them:
 internal/domains/user/bus/models.go and internal/domains/user/store/userdb/models.go, with the
 column types of internal/migrate/sql/20250914214924_init.up.sql.
 */
module Users {
  import opened Wrappers
  import opened Roles
  import opened RoleColumn

  type Uuid = nat

  /** Nanoseconds since the epoch. */
  type Time = int

  const MICROSECOND := 1000

  /** `Truncate(time.Microsecond)`, and the precision of a stored timestamp. */
  function Micro(t: Time): Time {
    t - t % MICROSECOND
  }

  datatype MailAddress = MailAddress(name: string, address: string)

  datatype User = User(
    id: Uuid, name: string, email: MailAddress, roles: seq<Role>, passwordHash: string,
    department: string, enabled: bool, createdAt: Time, updatedAt: Time)

  datatype NewUser = NewUser(
    name: string, email: MailAddress, roles: seq<Role>, department: string, password: string)

  /** Absent fields are nil in the source; `Some([])` is a non-nil empty role slice. */
  datatype UpdateUser = UpdateUser(
    name: Option<string>, email: Option<MailAddress>, roles: Option<seq<Role>>,
    department: Option<string>, password: Option<string>, enabled: Option<bool>)

  /** The store's `user` struct: what a write binds and what a scan fills. */
  datatype DbUser = DbUser(
    id: Uuid, name: string, email: string, roles: seq<Role>, passwordHash: string,
    department: Option<string>, enabled: bool, createdAt: Time, updatedAt: Time)

  /** A row of `users`: roles are the elements of the `TEXT[]` value, and `None` is a NULL department. */
  datatype Row = Row(
    id: Uuid, name: string, email: string, roles: Column, passwordHash: string,
    department: Option<string>, enabled: bool, createdAt: Time, updatedAt: Time)

  function FromBusUser(u: User): DbUser {
    DbUser(u.id, u.name, u.email.address, u.roles, u.passwordHash,
           if u.department != "" then Some(u.department) else None,
           u.enabled, u.createdAt, u.updatedAt)
  }

  function ToUserBus(d: DbUser): User {
    User(d.id, d.name, MailAddress(d.name, d.email), d.roles, d.passwordHash,
         if d.department.Some? then d.department.value else "", d.enabled, d.createdAt, d.updatedAt)
  }

  const NAME_LIMIT := 200
  const EMAIL_LIMIT := 300
  const DEPARTMENT_LIMIT := 100

  /** What a `VARCHAR(limit)` column stores (section 8.3 of the PostgreSQL 17 documentation): an excess of
      blanks is cut off, any other is refused. */
  function Cut(limit: nat, s: string): Option<string> {
    if |s| <= limit then Some(s)
    else if forall i :: limit <= i < |s| ==> s[i] == ' ' then Some(s[..limit])
    else None
  }

  /** A text is kept up to the limit, and stored only if nothing but blanks is cut off. */
  lemma CutExactly(limit: nat, s: string, c: string)
    ensures Cut(limit, s) == Some(c) <==>
            && c <= s && |c| == (if |s| <= limit then |s| else limit)
            && forall i :: |c| <= i < |s| ==> s[i] == ' '
  {
    assert s[..|s|] == s;
    if c <= s {
      assert c == s[..|c|];
    }
    if |s| > limit && c <= s && |c| == limit {
      assert c == s[..limit];
    }
  }

  /** A stored time is the last whole microsecond, 1000 nanoseconds, up to the one given. */
  lemma MicroExactly(t: Time, m: Time)
    ensures Micro(t) == m <==> m % 1000 == 0 && m <= t < m + 1000
  {
  }

  function CutIfAny(limit: nat, s: Option<string>): Option<Option<string>> {
    if s.None? then Some(None)
    else
      match Cut(limit, s.value)
      case None => None
      case Some(c) => Some(Some(c))
  }

  /** The row the database keeps for bound values: texts cut to their columns, timestamps at microsecond
      precision, and the role elements sent; `None` when one of them is refused. */
  function Stored(d: DbUser): Option<Row> {
    var name, email, department := Cut(NAME_LIMIT, d.name), Cut(EMAIL_LIMIT, d.email), CutIfAny(DEPARTMENT_LIMIT, d.department);
    var column := RoleColumn.Write(d.roles);
    if name.None? || email.None? || department.None? || column.None? then None
    else
      Some(Row(d.id, name.value, email.value, column.value, d.passwordHash, department.value, d.enabled,
               Micro(d.createdAt), Micro(d.updatedAt)))
  }

  /** `StructScan`; it fails when the roles column does not scan. */
  function StructScan(t: RoleTable, row: Row): Option<DbUser> {
    match RoleColumn.Read(t, row.roles)
    case None => None
    case Some(roles) =>
      Some(DbUser(row.id, row.name, row.email, roles, row.passwordHash, row.department, row.enabled,
                  row.createdAt, row.updatedAt))
  }

  function Written(u: User): Option<Row> {
    Stored(FromBusUser(u))
  }

  function ReadBack(t: RoleTable, row: Row): Option<User> {
    match StructScan(t, row)
    case None => None
    case Some(d) => Some(ToUserBus(d))
  }

  /** What writing and reading back makes of a user. */
  function Normal(u: User): User {
    u.(email := MailAddress(u.name, u.email.address), createdAt := Micro(u.createdAt), updatedAt := Micro(u.updatedAt))
  }

  /** The user with its texts as their columns store them. */
  function AsStored(u: User): Option<User> {
    var name, email, department := Cut(NAME_LIMIT, u.name), Cut(EMAIL_LIMIT, u.email.address), Cut(DEPARTMENT_LIMIT, u.department);
    if name.None? || email.None? || department.None? then None
    else Some(u.(name := name.value, email := u.email.(address := email.value), department := department.value))
  }

  predicate WithinLimits(u: User) {
    |u.name| <= 200 && |u.email.address| <= 300 && |u.department| <= 100
  }

  predicate Fits(row: Row) {
    && |row.name| <= 200 && |row.email| <= 300
    && (row.department.Some? ==> |row.department.value| <= 100)
  }

  /** Storing changes no text exactly when all are within their limits, and changes none twice. */
  lemma AsStoredExactly(u: User)
    ensures AsStored(u) == Some(u) <==> WithinLimits(u)
    ensures AsStored(u).Some? ==> WithinLimits(AsStored(u).value)
  {
  }

  /** The row that a user with registered roles and texts within their limits is stored as. */
  function RowOf(u: User): Row {
    Row(u.id, u.name, u.email.address, Elements(u.roles), u.passwordHash,
        if u.department != "" then Some(u.department) else None, u.enabled, Micro(u.createdAt), Micro(u.updatedAt))
  }

  /** A user with registered roles is written if its texts can be stored, as the row of the user so cut. */
  lemma WrittenKnown(t: RoleTable, u: User)
    requires Faithful(t) && Known(t, u.roles)
    ensures Written(u) == if AsStored(u).Some? then Some(RowOf(AsStored(u).value)) else None
  {
    WriteKnown(t, u.roles);
  }

  /** Write then read is the identity up to `Normal` exactly for users whose roles are registered and whose
      texts are within their limits. */
  lemma WriteThenRead(t: RoleTable, u: User)
    requires Faithful(t)
    ensures (Written(u).Some? && ReadBack(t, Written(u).value) == Some(Normal(u))) <==>
            Known(t, u.roles) && WithinLimits(u)
  {
    ColumnRoundTrip(t, u.roles);
    if Known(t, u.roles) {
      WrittenKnown(t, u);
      AsStoredExactly(u);
    }
  }

  /** Whatever registered roles and texts are written, they read back as stored, and a second cycle changes
      nothing. */
  lemma WrittenReads(t: RoleTable, u: User)
    requires Faithful(t) && Known(t, u.roles)
    ensures Written(u).Some? <==> AsStored(u).Some?
    ensures Written(u).Some? ==>
              var v := Normal(AsStored(u).value);
              && ReadBack(t, Written(u).value) == Some(v)
              && Written(v) == Written(u) && AsStored(v) == Some(v) && Normal(v) == v
  {
    WrittenKnown(t, u);
    if AsStored(u).Some? {
      var v := Normal(AsStored(u).value);
      AsStoredExactly(u);
      AsStoredExactly(v);
      ReadKnown(t, u.roles);
      WrittenKnown(t, v);
      assert Micro(Micro(u.createdAt)) == Micro(u.createdAt) && Micro(Micro(u.updatedAt)) == Micro(u.updatedAt);
    }
  }

  /** A row in the form that a write of registered roles leaves it in: texts within their limits, no empty
      department, and whole-microsecond times. */
  ghost predicate Canonical(t: RoleTable, row: Row) {
    && (exists roles :: Known(t, roles) && row.roles == Elements(roles))
    && Fits(row) && row.department != Some("")
    && Micro(row.createdAt) == row.createdAt
    && Micro(row.updatedAt) == row.updatedAt
  }

  /** On canonical rows reading loses nothing: writing back what was read restores the row. */
  lemma ReadThenWrite(t: RoleTable, row: Row)
    requires Faithful(t) && Canonical(t, row)
    ensures ReadBack(t, row).Some?
    ensures var u := ReadBack(t, row).value; Known(t, u.roles) && RowOf(u) == row && Written(u) == Some(row)
    ensures var u := ReadBack(t, row).value; Normal(u) == u && WithinLimits(u) && u.id == row.id && u.enabled == row.enabled
  {
    var roles :| Known(t, roles) && row.roles == Elements(roles);
    ReadKnown(t, roles);
    var u := ReadBack(t, row).value;
    RowRestored(row, u);
    WrittenKnown(t, u);
    AsStoredExactly(u);
  }

  lemma RowRestored(row: Row, u: User)
    requires u == ToUserBus(DbUser(row.id, row.name, row.email, u.roles, row.passwordHash, row.department, row.enabled,
                                   row.createdAt, row.updatedAt))
    requires Fits(row) && row.department != Some("") && row.roles == Elements(u.roles)
    requires Micro(row.createdAt) == row.createdAt && Micro(row.updatedAt) == row.updatedAt
    ensures RowOf(u) == row && WithinLimits(u) && Normal(u) == u
  {
  }
}
