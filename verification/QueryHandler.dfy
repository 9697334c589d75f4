/**
 The query endpoint from raw request strings to its reply: `Query` of
 internal/domains/user/handler/handler.go, internal/domains/user/handler/filters.go
 and `toAppUser` of internal/domains/user/handler/models.go.
 */
module QueryHandler {
  import opened Wrappers
  import opened Roles
  import opened RoleColumn
  import opened Users
  import opened Order
  import opened Filter
  import opened Sql
  import opened Paging
  import opened UserDb
  import DriverArray
  import P = Page

  /** Query parameters as bound from the request. */
  datatype Filters = Filters(
    name: Option<string>, department: Option<string>, roles: seq<string>,
    startCreatedAt: Option<string>, endCreatedAt: Option<string>)

  /** `time.Parse(time.RFC3339, _)` */
  type TimeParser = string -> Option<Time>

  /** `Format(time.RFC3339)` */
  type TimeFormat = Time -> string

  /** An optional time parameter: absent, or present and readable. */
  ghost predicate ReadsTime(parseTime: TimeParser, text: Option<string>, time: Option<Time>) {
    if text.None? then time.None? else time == parseTime(text.value) && time.Some?
  }

  /** `g` is the store filter that `f` asks for; a request without roles does not constrain roles. */
  ghost predicate Converts(rt: RoleTable, parseTime: TimeParser, f: Filters, g: QueryFilter) {
    && g.name == f.name && g.department == f.department
    && (if f.roles == [] then g.roles.None? else g.roles.Some? && g.roles == ParseMany(rt, f.roles))
    && ReadsTime(parseTime, f.startCreatedAt, g.startCreatedAt)
    && ReadsTime(parseTime, f.endCreatedAt, g.endCreatedAt)
  }

  /** Field by field, giving up at the first that cannot be read; a request has at most one filter. */
  method ToBusQueryFilter(rt: RoleTable, parseTime: TimeParser, f: Filters) returns (r: Option<QueryFilter>)
    ensures r.Some? ==> Converts(rt, parseTime, f, r.value)
    ensures r.Some? ==> forall g :: Converts(rt, parseTime, f, g) ==> g == r.value
    ensures r.None? ==> forall g :: !Converts(rt, parseTime, f, g)
  {
    var g := QueryFilter(None, None, None, None, None);
    if |f.roles| != 0 {
      var parsedRoles := ParseManyRoles(rt, f.roles);
      if parsedRoles.None? {
        return None;
      }
      g := g.(roles := parsedRoles);
    }
    if f.department.Some? {
      g := g.(department := f.department);
    }
    if f.name.Some? {
      g := g.(name := f.name);
    }
    if f.startCreatedAt.Some? {
      var start := parseTime(f.startCreatedAt.value);
      if start.None? {
        return None;
      }
      g := g.(startCreatedAt := start);
    }
    if f.endCreatedAt.Some? {
      var end := parseTime(f.endCreatedAt.value);
      if end.None? {
        return None;
      }
      g := g.(endCreatedAt := end);
    }
    r := Some(g);
  }

  datatype AppUser = AppUser(
    id: Uuid, name: string, email: string, roles: seq<string>, department: string,
    enabled: bool, createdAt: string, updatedAt: string)

  function ToAppUser(format: TimeFormat, u: User): AppUser {
    AppUser(u.id, u.name, u.email.address, Roles.Names(u.roles), u.department, u.enabled,
            format(u.createdAt), format(u.updatedAt))
  }

  /** The user shows the row's own columns, its roles by the registered names that they are stored for. */
  ghost predicate Shows(rt: RoleTable, format: TimeFormat, a: AppUser, row: Row) {
    && a.id == row.id && a.name == row.name && a.email == row.email && a.enabled == row.enabled
    && a.department == (if row.department.Some? then row.department.value else "")
    && a.createdAt == format(row.createdAt) && a.updatedAt == format(row.updatedAt)
    && DriverArray.ElementsOf(a.roles) == row.roles && forall name :: name in a.roles ==> name in rt
  }

  ghost predicate ShowsAll(rt: RoleTable, format: TimeFormat, users: seq<AppUser>, rows: seq<Row>) {
    |users| == |rows| && forall i :: 0 <= i < |rows| ==> Shows(rt, format, users[i], rows[i])
  }

  datatype QueryResult = QueryResult(users: seq<AppUser>, total: nat, page: int, rowsPerPage: int)

  datatype QueryError = BadRequest | Internal

  /** Reading a stored row and showing the user shows the row's own columns, and nothing else shows them. */
  lemma ShownAsStored(rt: RoleTable, format: TimeFormat, row: Row)
    requires Faithful(rt) && Canonical(rt, row)
    ensures ReadBack(rt, row).Some?
    ensures forall a :: Shows(rt, format, a, row) <==> a == ToAppUser(format, ReadBack(rt, row).value)
  {
    ReadThenWrite(rt, row);
    var u := ReadBack(rt, row).value;
    forall a | Shows(rt, format, a, row)
      ensures a == ToAppUser(format, u)
    {
      ElementsDetermine(a.roles, Roles.Names(u.roles));
    }
  }

  /** The rows of a page are rows of the table. */
  lemma PageRows(coll: Collation, t: Table, f: QueryFilter, field: Field, off: nat, n: nat, rows: seq<Row>)
    requires TotalOrder(coll) && ParsedOrder(field) && PageOf(coll, RowsOf(t), f, field, off, n, rows)
    ensures forall i :: 0 <= i < |rows| ==> exists id :: id in t && rows[i] == t[id]
  {
    var o, all := OrderingOf(coll, field), Meeting(RowsOf(t), f);
    var xs :| Listing(o, all, xs) && rows == Slice(xs, off, n);
    forall i | 0 <= i < |rows|
      ensures exists id :: id in t && rows[i] == t[id]
    {
      SliceIndex(xs, off, n, i);
      assert xs[off + i] in xs;
      ListingMember(o, all, xs, rows[i]);
      assert rows[i] in RowsOf(t);
    }
  }

  lemma PageScans(rt: RoleTable, coll: Collation, t: Table, f: QueryFilter, field: Field, off: nat, n: nat, rows: seq<Row>)
    requires Faithful(rt) && AllCanonical(rt, t)
    requires TotalOrder(coll) && ParsedOrder(field) && PageOf(coll, RowsOf(t), f, field, off, n, rows)
    ensures ScanRows(rt, rows).Some?
    ensures forall i :: 0 <= i < |rows| ==> Canonical(rt, rows[i])
  {
    PageRows(coll, t, f, field, off, n, rows);
    forall i | 0 <= i < |rows|
      ensures Canonical(rt, rows[i]) && ReadBack(rt, rows[i]).Some?
    {
      ReadThenWrite(rt, rows[i]);
    }
  }

  /** What the store replies on a canonical table to an order and page that a request can carry. */
  lemma StoreReplies(rt: RoleTable, coll: Collation, db: Engine, tick: nat, t: Table, f: QueryFilter, order: Field, page: P.Page)
    requires Conforms(coll, db) && Faithful(rt) && AllCanonical(rt, t) && ParsedOrder(order) && P.Legal(page)
    ensures var reply := db(tick, RowsOf(t), SelectText(f, order), QueryParams(f, page));
            if P.Offset(page) < 0 then reply == Refused
            else
              && reply.Rows? && ScanRows(rt, reply.rows).Some?
              && PageOf(coll, RowsOf(t), f, order, P.Offset(page), page.rows, reply.rows)
              && InOrder(coll, order, reply.rows)
              && forall i :: 0 <= i < |reply.rows| ==> Canonical(rt, reply.rows[i])
  {
    var text, params := SelectText(f, order), QueryParams(f, page);
    var reply := db(tick, RowsOf(t), text, params);
    assert Admissible(coll, RowsOf(t), text, params, reply);
    QueryMeans(coll, RowsOf(t), f, order, page, reply);
    if P.Offset(page) >= 0 {
      PageScans(rt, coll, t, f, order, P.Offset(page), page.rows, reply.rows);
    }
  }

  /** The reply loop of the endpoint, over users scanned from canonical rows. */
  method ToAppUsers(rt: RoleTable, format: TimeFormat, busUsers: seq<User>, ghost rows: seq<Row>) returns (users: seq<AppUser>)
    requires Faithful(rt) && forall i :: 0 <= i < |rows| ==> Canonical(rt, rows[i])
    requires ScanRows(rt, rows) == Some(busUsers)
    ensures ShowsAll(rt, format, users, rows)
  {
    var a := new AppUser[|busUsers|](_ => AppUser(0, "", "", [], "", false, "", ""));
    var i := 0;
    while i < |busUsers|
      invariant 0 <= i <= |busUsers| == a.Length == |rows|
      invariant forall j :: 0 <= j < i ==> Shows(rt, format, a[j], rows[j])
    {
      ShownAsStored(rt, format, rows[i]);
      a[i] := ToAppUser(format, busUsers[i]);
      i := i + 1;
    }
    users := a[..];
  }

  /** The query endpoint on a canonical table. A request is turned down exactly when its page, filter or
      order cannot be read, fails inside exactly when its machine offset is negative, and otherwise shows
      the requested page of a listing of the matching rows, in the order that the request spells, together
      with their total number. */
  method Query(
      store: Store, parseTime: TimeParser, format: TimeFormat, tick1: nat, tick2: nat,
      pageNumber: string, rowsPerPage: string, bound: Option<Filters>, orderBy: string)
    returns (r: Result<QueryResult, QueryError>)
    requires Conforms(store.coll, store.db) && Faithful(store.roleTable) && AllCanonical(store.roleTable, store.users)
    ensures r == Err(BadRequest) <==>
            P.Parse(pageNumber, rowsPerPage).None? || bound.None? || ParseOrderBy(orderBy).None? ||
            forall g :: !Converts(store.roleTable, parseTime, bound.value, g)
    ensures r == Err(Internal) ==> P.Offset(P.Parse(pageNumber, rowsPerPage).value) < 0
    ensures r.Ok? ==>
              var p, field := P.Parse(pageNumber, rowsPerPage).value, ParseOrderBy(orderBy).value;
              && ParsedOrder(field) && Orders(orderBy, field) && P.Legal(p) && P.Offset(p) >= 0
              && r.value.page == p.number && r.value.rowsPerPage == p.rows
              && exists f, rows ::
                   && Converts(store.roleTable, parseTime, bound.value, f)
                   && PageOf(store.coll, RowsOf(store.users), f, field, P.Offset(p), p.rows, rows)
                   && InOrder(store.coll, field, rows)
                   && ShowsAll(store.roleTable, format, r.value.users, rows)
                   && r.value.total == |Meeting(RowsOf(store.users), f)|
  {
    var page := P.Parse(pageNumber, rowsPerPage);
    if page.None? {
      return Err(BadRequest);
    }
    P.ParseAccepts(pageNumber, rowsPerPage, page.value);
    if bound.None? {
      return Err(BadRequest);
    }
    var busFilter := ToBusQueryFilter(store.roleTable, parseTime, bound.value);
    if busFilter.None? {
      return Err(BadRequest);
    }
    var f := busFilter.value;
    var order := ParseOrderBy(orderBy);
    if order.None? {
      return Err(BadRequest);
    }
    ParsedOrderTranslates(orderBy);
    OrderGrammar(orderBy, order.value);
    r := Answer(store, format, tick1, tick2, f, order.value, page.value);
  }

  /** The database half of the endpoint: page, total, and the mapping of users for the reply. */
  method Answer(
      store: Store, format: TimeFormat, tick1: nat, tick2: nat, f: QueryFilter, order: Field, page: P.Page)
    returns (r: Result<QueryResult, QueryError>)
    requires Conforms(store.coll, store.db) && Faithful(store.roleTable) && AllCanonical(store.roleTable, store.users)
    requires ParsedOrder(order) && P.Legal(page)
    ensures r.Err? <==> P.Offset(page) < 0
    ensures r.Err? ==> r.error == Internal
    ensures r.Ok? ==>
              && r.value.page == page.number && r.value.rowsPerPage == page.rows
              && r.value.total == |Meeting(RowsOf(store.users), f)|
              && exists rows :: PageOf(store.coll, RowsOf(store.users), f, order, P.Offset(page), page.rows, rows)
                           && InOrder(store.coll, order, rows)
                           && ShowsAll(store.roleTable, format, r.value.users, rows)
  {
    StoreReplies(store.roleTable, store.coll, store.db, tick1, store.users, f, order, page);
    var busUsers := store.Query(tick1, f, order, page);
    if busUsers.Err? {
      return Err(Internal);
    }
    var total := store.Count(tick2, f);
    ghost var rows := store.db(tick1, RowsOf(store.users), SelectText(f, order), QueryParams(f, page)).rows;
    var users := ToAppUsers(store.roleTable, format, busUsers.value, rows);
    r := Ok(QueryResult(users, total, page.number, page.rows));
  }
}
