/**
 What a page query returns, and what a client sees who walks through the pages:
 `Store.Query` and `Store.Count` of internal/domains/user/store/userdb/userdb.go
 at the level of statements and replies.
 */
module Paging {
  import opened Wrappers
  import opened Users
  import opened Sql
  import opened Order
  import opened Filter
  import P = Page

  /** A sort order that `ParseOrderBy` can produce. */
  ghost predicate ParsedOrder(field: Field) {
    field.name in ORDER_BY_COLUMNS && field.dir in {ASC, DESC}
  }

  /** `a` may come before `b` in ascending order of a field. */
  ghost predicate Ascends(coll: Collation, name: string, a: Row, b: Row) {
    && (name == "name" ==> coll(a.name, b.name))
    && (name == "email" ==> coll(a.email, b.email))
    && (name == "createdAt" ==> a.createdAt <= b.createdAt)
    && (name == "updatedAt" ==> a.updatedAt <= b.updatedAt)
  }

  /** The rows come in the order that the field and direction of a request name. */
  ghost predicate InOrder(coll: Collation, field: Field, rows: seq<Row>) {
    && (field.dir == "asc" ==> forall i, j :: 0 <= i < j < |rows| ==> Ascends(coll, field.name, rows[i], rows[j]))
    && (field.dir == "desc" ==> forall i, j :: 0 <= i < j < |rows| ==> Ascends(coll, field.name, rows[j], rows[i]))
  }

  function OrderingOf(coll: Collation, field: Field): Ordering
    requires field.name in ORDER_BY_COLUMNS
  {
    Ordering(coll, ORDER_BY_COLUMNS[field.name], field.dir == DESC)
  }

  lemma OrderingValid(coll: Collation, field: Field)
    requires TotalOrder(coll) && field.name in ORDER_BY_COLUMNS
    ensures OrderingOf(coll, field).Valid() && Sortable(ORDER_BY_COLUMNS[field.name])
  {
  }

  /** The window parameters `Store.Query` starts its map with. */
  function PageParams(p: P.Page): Params {
    map["offset" := IntV(P.Offset(p)), "rows_per_page" := IntV(p.rows)]
  }

  function QueryParams(f: QueryFilter, p: P.Page): Params {
    PageParams(p) + WhereParams(f)
  }

  function SelectText(f: QueryFilter, field: Field): string
    requires field.name in ORDER_BY_COLUMNS
  {
    QueryText(WhereConds(f), OrderByClause(field).value)
  }

  /** `rows` is the page of some listing of the rows that meet the filter. */
  ghost predicate PageOf(coll: Collation, table: set<Row>, f: QueryFilter, field: Field, off: nat, n: nat, rows: seq<Row>)
    requires TotalOrder(coll) && field.name in ORDER_BY_COLUMNS
  {
    exists xs :: Listing(OrderingOf(coll, field), Meeting(table, f), xs) && rows == Slice(xs, off, n)
  }

  lemma SliceIndex<T>(xs: seq<T>, off: nat, n: nat, i: nat)
    requires i < |Slice(xs, off, n)|
    ensures i < n && off + i < |xs| && Slice(xs, off, n)[i] == xs[off + i]
  {
  }

  /** Every page of a listing is in the order asked for. */
  lemma PageInOrder(coll: Collation, table: set<Row>, f: QueryFilter, field: Field, off: nat, n: nat, rows: seq<Row>)
    requires TotalOrder(coll) && ParsedOrder(field) && PageOf(coll, table, f, field, off, n, rows)
    ensures InOrder(coll, field, rows)
  {
    var xs :| Listing(OrderingOf(coll, field), Meeting(table, f), xs) && rows == Slice(xs, off, n);
    forall i, j | 0 <= i < j < |rows|
      ensures if field.dir == "asc" then Ascends(coll, field.name, rows[i], rows[j])
              else Ascends(coll, field.name, rows[j], rows[i])
    {
      SliceIndex(xs, off, n, i);
      SliceIndex(xs, off, n, j);
      OrderedPair(coll, field, rows[i], rows[j]);
    }
  }

  lemma OrderedPair(coll: Collation, field: Field, a: Row, b: Row)
    requires TotalOrder(coll) && ParsedOrder(field) && OrderingOf(coll, field).Leq(a, b)
    ensures if field.dir == "asc" then Ascends(coll, field.name, a, b) else Ascends(coll, field.name, b, a)
  {
  }

  lemma ParamsOf(f: QueryFilter, p: P.Page)
    ensures Binds(QueryParams(f, p), f)
    ensures var q := QueryParams(f, p);
            "offset" in q && q["offset"] == IntV(P.Offset(p)) && "rows_per_page" in q && q["rows_per_page"] == IntV(p.rows)
  {
    ParamsBind(PageParams(p), f);
    NotFilterKey(f, "offset");
    NotFilterKey(f, "rows_per_page");
  }

  lemma NotFilterKey(f: QueryFilter, k: string)
    requires k == "offset" || k == "rows_per_page"
    ensures k !in WhereParams(f)
  {
    ParamsNamed(f, k);
    if c :| c in WhereConds(f) && k == c.param {
      Emitted(f, c);
    }
  }

  function QueryStatement(f: QueryFilter, field: Field): Statement
    requires field.name in ORDER_BY_COLUMNS
  {
    Select(WhereConds(f), ORDER_BY_COLUMNS[field.name], field.dir, "offset", "rows_per_page")
  }

  lemma AnswersText(coll: Collation, table: set<Row>, f: QueryFilter, field: Field, params: Params, reply: Reply)
    requires TotalOrder(coll) && ParsedOrder(field)
    ensures Admissible(coll, table, SelectText(f, field), params, reply) <==>
            Answers(coll, table, QueryStatement(f, field), params, reply)
  {
    QueryTextParses(f, field);
  }

  lemma AnswersMean(coll: Collation, table: set<Row>, f: QueryFilter, field: Field,
                    params: Params, off: int, n: nat, reply: Reply)
    requires TotalOrder(coll) && ParsedOrder(field) && Binds(params, f)
    requires "offset" in params && params["offset"] == IntV(off)
    requires "rows_per_page" in params && params["rows_per_page"] == IntV(n)
    requires Answers(coll, table, QueryStatement(f, field), params, reply)
    ensures off < 0 ==> reply == Refused
    ensures off >= 0 ==> reply.Rows? && PageOf(coll, table, f, field, off, n, reply.rows)
  {
    WhereSelects(f, params, table);
    OrderingValid(coll, field);
  }

  /** Any admissible reply to a page query is the requested page of some sorted listing of exactly the
      rows that meet the filter, in the order asked for; only a negative machine offset is refused. */
  lemma QueryMeans(coll: Collation, table: set<Row>, f: QueryFilter, field: Field, p: P.Page, reply: Reply)
    requires TotalOrder(coll) && ParsedOrder(field) && p.rows >= 0
    requires Admissible(coll, table, SelectText(f, field), QueryParams(f, p), reply)
    ensures P.Offset(p) < 0 ==> reply == Refused
    ensures P.Offset(p) >= 0 ==> reply.Rows? && PageOf(coll, table, f, field, P.Offset(p), p.rows, reply.rows)
    ensures P.Offset(p) >= 0 ==> InOrder(coll, field, reply.rows)
  {
    ParamsOf(f, p);
    AnswersText(coll, table, f, field, QueryParams(f, p), reply);
    AnswersMean(coll, table, f, field, QueryParams(f, p), P.Offset(p), p.rows, reply);
    if P.Offset(p) >= 0 {
      PageInOrder(coll, table, f, field, P.Offset(p), p.rows, reply.rows);
    }
  }

  /** `Count` is the number of rows that meet the filter. */
  lemma CountMeans(coll: Collation, table: set<Row>, f: QueryFilter, reply: Reply)
    requires TotalOrder(coll)
    requires Admissible(coll, table, CountText(WhereConds(f)), map[] + WhereParams(f), reply)
    ensures reply == CountIs(|Meeting(table, f)|)
  {
    CountTextParses(f);
    ParamsBind(map[], f);
    WhereSelects(f, map[] + WhereParams(f), table);
  }

  // ----- walking through the pages of one listing

  function Max(a: int, b: int): int { if a >= b then a else b }

  /** Pages 1..k of a listing, one after the other. */
  function PagesUpTo<T>(xs: seq<T>, rows: nat, k: nat): seq<T> {
    if k == 0 then [] else PagesUpTo(xs, rows, k - 1) + Slice(xs, (k - 1) * rows, rows)
  }

  lemma SliceExtends<T>(xs: seq<T>, off: nat, n: nat)
    ensures xs[..Min(off, |xs|)] + Slice(xs, off, n) == xs[..Min(off + n, |xs|)]
  {
  }

  /** Page p has min(rows, max(0, n - (p-1)*rows)) rows; pages 1..k are the first min(n, k*rows) rows,
      none lost and none repeated. */
  lemma {:induction false} PagesTile<T>(xs: seq<T>, rows: nat, k: nat)
    ensures PagesUpTo(xs, rows, k) == xs[..Min(k * rows, |xs|)]
    ensures k > 0 ==> |Slice(xs, (k - 1) * rows, rows)| == Min(rows, Max(0, |xs| - (k - 1) * rows))
  {
    if k > 0 {
      PagesTile(xs, rows, k - 1);
      SliceExtends(xs, (k - 1) * rows, rows);
      assert (k - 1) * rows + rows == k * rows;
    }
  }

  /** Listings are as long as `Count` says and repeat no row. */
  lemma ListingCounts(o: Ordering, rows: set<Row>, xs: seq<Row>)
    requires o.Valid() && Listing(o, rows, xs)
    ensures |xs| == |rows|
    ensures forall i, j :: 0 <= i < j < |xs| ==> xs[i] != xs[j]
  {
    assert |xs| == |multiset(xs)| && |multiset(rows)| == |rows|;
    forall i, j | 0 <= i < j < |xs|
      ensures xs[i] != xs[j]
    {
      assert xs == xs[..i] + [xs[i]] + xs[i + 1..j] + [xs[j]] + xs[j + 1..];
      assert multiset(rows)[xs[i]] <= 1;
    }
  }

  // ----- pages fetched one at a time from a database

  /** The rows of page p as the database answers at time `tick`; a refusal brings none. */
  function Fetch(db: Engine, tick: nat, table: set<Row>, f: QueryFilter, field: Field, p: P.Page): seq<Row>
    requires field.name in ORDER_BY_COLUMNS
  {
    var reply := db(tick, table, SelectText(f, field), QueryParams(f, p));
    if reply.Rows? then reply.rows else []
  }

  /** Pages 1..k fetched by separate requests, each answered at its own time. */
  function FetchUpTo(db: Engine, ticks: nat -> nat, table: set<Row>, f: QueryFilter, field: Field, rows: nat, k: nat): seq<Row>
    requires field.name in ORDER_BY_COLUMNS
  {
    if k == 0 then []
    else FetchUpTo(db, ticks, table, f, field, rows, k - 1) + Fetch(db, ticks(k), table, f, field, P.Page(k, rows))
  }

  ghost predicate UniqueEmails(table: set<Row>) {
    forall a, b :: a in table && b in table && a.email == b.email ==> a == b
  }

  /** Ordering by email never ties when emails are unique. */
  lemma EmailNeverTies(coll: Collation, table: set<Row>, f: QueryFilter, field: Field)
    requires TotalOrder(coll) && field.name == "email" && UniqueEmails(table)
    ensures NoTies(OrderingOf(coll, field), Meeting(table, f))
  {
  }

  lemma FetchPage(coll: Collation, db: Engine, tick: nat, table: set<Row>, f: QueryFilter, field: Field, p: P.Page)
    requires Conforms(coll, db) && ParsedOrder(field) && p.rows >= 0 && P.Offset(p) >= 0
    ensures PageOf(coll, table, f, field, P.Offset(p), p.rows, Fetch(db, tick, table, f, field, p))
  {
    var text, params := SelectText(f, field), QueryParams(f, p);
    assert Admissible(coll, table, text, params, db(tick, table, text, params));
    QueryMeans(coll, table, f, field, p, db(tick, table, text, params));
  }

  lemma FetchExact(coll: Collation, db: Engine, tick: nat, table: set<Row>, f: QueryFilter, field: Field, p: P.Page, xs: seq<Row>)
    requires Conforms(coll, db) && ParsedOrder(field) && P.Legal(p) && P.Start(p) <= P.MAX_INT
    requires NoTies(OrderingOf(coll, field), Meeting(table, f))
    requires Listing(OrderingOf(coll, field), Meeting(table, f), xs)
    ensures 0 <= P.Start(p) && Fetch(db, tick, table, f, field, p) == Slice(xs, P.Start(p), p.rows)
  {
    P.OffsetExact(p);
    FetchPage(coll, db, tick, table, f, field, p);
    var rows := Fetch(db, tick, table, f, field, p);
    PageExact(coll, table, f, field, P.Offset(p), p.rows, rows, xs);
  }

  lemma PageExact(coll: Collation, table: set<Row>, f: QueryFilter, field: Field, off: nat, n: nat, rows: seq<Row>, xs: seq<Row>)
    requires TotalOrder(coll) && ParsedOrder(field) && PageOf(coll, table, f, field, off, n, rows)
    requires NoTies(OrderingOf(coll, field), Meeting(table, f))
    requires Listing(OrderingOf(coll, field), Meeting(table, f), xs)
    ensures rows == Slice(xs, off, n)
  {
    var ys :| Listing(OrderingOf(coll, field), Meeting(table, f), ys) && rows == Slice(ys, off, n);
    ListingUnique(OrderingOf(coll, field), Meeting(table, f), xs, ys);
  }

  /** Separately fetched pages are the pages of the one listing. */
  lemma {:induction false} SeparatePages(
      coll: Collation, db: Engine, ticks: nat -> nat, table: set<Row>, f: QueryFilter, field: Field,
      rows: nat, k: nat, xs: seq<Row>)
    requires Conforms(coll, db) && ParsedOrder(field) && 1 <= rows <= P.MAX_INT / 99 && k <= P.MAX_NUMBER
    requires NoTies(OrderingOf(coll, field), Meeting(table, f))
    requires Listing(OrderingOf(coll, field), Meeting(table, f), xs)
    ensures FetchUpTo(db, ticks, table, f, field, rows, k) == PagesUpTo(xs, rows, k)
  {
    if k > 0 {
      SeparatePages(coll, db, ticks, table, f, field, rows, k - 1, xs);
      var p := P.Page(k, rows);
      P.StartBounds(p);
      FetchExact(coll, db, ticks(k), table, f, field, p, xs);
    }
  }

  /** On an unchanged table whose matching rows do not tie, separately fetched pages 1..k of up to 100
      add up to the first min(n, k*rows) rows of the one listing, whatever choices the database makes. */
  lemma SeparatePagesTile(
      coll: Collation, db: Engine, ticks: nat -> nat, table: set<Row>, f: QueryFilter, field: Field,
      rows: nat, k: nat, xs: seq<Row>)
    requires Conforms(coll, db) && ParsedOrder(field) && 1 <= rows <= P.MAX_INT / 99 && k <= P.MAX_NUMBER
    requires NoTies(OrderingOf(coll, field), Meeting(table, f))
    requires Listing(OrderingOf(coll, field), Meeting(table, f), xs)
    ensures FetchUpTo(db, ticks, table, f, field, rows, k) == xs[..Min(k * rows, |xs|)]
  {
    SeparatePages(coll, db, ticks, table, f, field, rows, k, xs);
    PagesTile(xs, rows, k);
  }

  /** With unique emails, paging by email partitions the matching rows: the 100 reachable pages show the
      first 100*rows of them in the only possible order. */
  lemma EmailPagesPartition(
      coll: Collation, db: Engine, ticks: nat -> nat, table: set<Row>, f: QueryFilter, field: Field, rows: nat)
    returns (xs: seq<Row>)
    requires Conforms(coll, db) && ParsedOrder(field) && field.name == "email" && UniqueEmails(table)
    requires 1 <= rows <= P.MAX_INT / 99
    ensures Listing(OrderingOf(coll, field), Meeting(table, f), xs) && |xs| == |Meeting(table, f)|
    ensures forall k: nat :: k <= P.MAX_NUMBER ==>
              FetchUpTo(db, ticks, table, f, field, rows, k) == xs[..Min(k * rows, |xs|)]
    ensures 100 * rows >= |xs| ==> FetchUpTo(db, ticks, table, f, field, rows, P.MAX_NUMBER) == xs
  {
    xs := ListingExists(OrderingOf(coll, field), Meeting(table, f));
    ListingCounts(OrderingOf(coll, field), Meeting(table, f), xs);
    EmailNeverTies(coll, table, f, field);
    forall k: nat | k <= P.MAX_NUMBER
      ensures FetchUpTo(db, ticks, table, f, field, rows, k) == xs[..Min(k * rows, |xs|)]
    {
      SeparatePagesTile(coll, db, ticks, table, f, field, rows, k, xs);
    }
  }

  // ----- when separately fetched pages can go wrong

  /** Two answers for the whole result, one per request, always agree exactly when the order never ties. */
  lemma AnswersAgreeExactly(coll: Collation, table: set<Row>, f: QueryFilter, field: Field)
    requires TotalOrder(coll) && ParsedOrder(field)
    ensures NoTies(OrderingOf(coll, field), Meeting(table, f)) <==>
            forall off: nat, n: nat, a, b ::
              PageOf(coll, table, f, field, off, n, a) && PageOf(coll, table, f, field, off, n, b) ==> a == b
  {
    var o, rows := OrderingOf(coll, field), Meeting(table, f);
    if NoTies(o, rows) {
      forall off: nat, n: nat, a, b |
        PageOf(coll, table, f, field, off, n, a) && PageOf(coll, table, f, field, off, n, b)
        ensures a == b
      {
        var xs :| Listing(o, rows, xs) && a == Slice(xs, off, n);
        var ys :| Listing(o, rows, ys) && b == Slice(ys, off, n);
        ListingUnique(o, rows, xs, ys);
      }
    } else {
      ListingDetermined(o, rows);
      var xs, ys :| Listing(o, rows, xs) && Listing(o, rows, ys) && xs != ys;
      ListingCounts(o, rows, xs);
      ListingCounts(o, rows, ys);
      assert Slice(xs, 0, |xs|) == xs && Slice(ys, 0, |xs|) == ys;
      assert PageOf(coll, table, f, field, 0, |xs|, xs) && PageOf(coll, table, f, field, 0, |xs|, ys);
    }
  }

  /** Pages 1 and 2 of one listing share no row. */
  lemma PagesDisjoint(o: Ordering, rows: set<Row>, xs: seq<Row>, n: nat, r: Row)
    requires o.Valid() && Listing(o, rows, xs)
    ensures !(r in Slice(xs, 0, n) && r in Slice(xs, n, n))
  {
    ListingCounts(o, rows, xs);
    if r in Slice(xs, 0, n) && r in Slice(xs, n, n) {
      var i :| 0 <= i < |Slice(xs, 0, n)| && Slice(xs, 0, n)[i] == r;
      var j :| 0 <= j < |Slice(xs, n, n)| && Slice(xs, n, n)[j] == r;
      SliceIndex(xs, 0, n, i);
      SliceIndex(xs, n, n, j);
    }
  }

  /** Two rows that tie can change places between requests: two listings, the first with a row in page 1
      that the second has in page 2. */
  lemma TieSwaps(o: Ordering, rows: set<Row>) returns (xs: seq<Row>, ys: seq<Row>, n: nat, r: Row)
    requires o.Valid() && !NoTies(o, rows)
    ensures n >= 1 && Listing(o, rows, xs) && Listing(o, rows, ys) && r in Slice(xs, 0, n) && r in Slice(ys, n, n)
  {
    var a, b :| a in rows && b in rows && o.Tied(a, b) && a != b;
    xs := ListingExists(o, rows);
    ListingMember(o, rows, xs, a);
    ListingMember(o, rows, xs, b);
    var i :| 0 <= i < |xs| && xs[i] == a;
    var j :| 0 <= j < |xs| && xs[j] == b;
    SwapTied(o, rows, xs, i, j);
    ys := xs[i := xs[j]][j := xs[i]];
    n := Max(i, j);
    r := xs[Min(i, j)];
    assert Slice(xs, 0, n)[Min(i, j)] == r;
    assert Slice(ys, n, n)[0] == ys[n] == r;
  }

  /** Pages 1 and 2 fetched by separate requests never show the same row, for any page size and whatever
      the database chooses, exactly when the order never ties on the matching rows. */
  lemma PagesPartitionExactly(coll: Collation, table: set<Row>, f: QueryFilter, field: Field)
    requires TotalOrder(coll) && ParsedOrder(field)
    ensures NoTies(OrderingOf(coll, field), Meeting(table, f)) <==>
            forall n: nat, a, b, r ::
              n >= 1 && PageOf(coll, table, f, field, 0, n, a) && PageOf(coll, table, f, field, n, n, b) ==>
              !(r in a && r in b)
  {
    var o, rows := OrderingOf(coll, field), Meeting(table, f);
    if NoTies(o, rows) {
      forall n: nat, a, b, r | n >= 1 && PageOf(coll, table, f, field, 0, n, a) && PageOf(coll, table, f, field, n, n, b)
        ensures !(r in a && r in b)
      {
        var xs :| Listing(o, rows, xs) && a == Slice(xs, 0, n);
        PageExact(coll, table, f, field, n, n, b, xs);
        PagesDisjoint(o, rows, xs, n, r);
      }
    } else {
      var xs, ys, n, r := TieSwaps(o, rows);
      assert PageOf(coll, table, f, field, 0, n, Slice(xs, 0, n)) && PageOf(coll, table, f, field, n, n, Slice(ys, n, n));
    }
  }

  /** The machine offset gives the right page of every listing exactly when the product fits in 64 bits. */
  lemma PageRightExactly(p: P.Page)
    requires P.Legal(p)
    ensures P.Start(p) >= 0
    ensures (P.Offset(p) >= 0 && forall xs: seq<int> :: Slice(xs, P.Offset(p), p.rows) == Slice(xs, P.Start(p), p.rows))
            <==> P.Start(p) <= 0x7FFF_FFFF_FFFF_FFFF
  {
    P.OffsetExact(p);
    var off := P.Offset(p);
    if P.Start(p) > P.MAX_INT && off >= 0 {
      var xs := seq(off + 1, i => i);
      assert |Slice(xs, off, p.rows)| == 1 && |Slice(xs, P.Start(p), p.rows)| == 0;
    }
  }
}
