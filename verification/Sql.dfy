/**
 The database's side of the user queries: how statement text is read, what its
 clauses mean on a table (three-valued WHERE, ORDER BY as "some sorted listing",
 OFFSET/FETCH as a slice), and which replies are admissible.
 */
module Sql {
  import opened Wrappers
  import opened GoStrings
  import opened Users
  import opened RoleColumn
  import Like

  // ----- values, parameters, statements

  datatype Value = TextV(text: string) | ArrayV(items: seq<string>) | TimeV(time: Time) | IntV(n: int)

  type Params = map<string, Value>

  /** `column op :param` */
  datatype Cond = Cond(column: string, op: string, param: string)

  datatype Statement =
    | Select(conds: seq<Cond>, orderBy: string, dir: string, offset: string, count: string)
    | Count(conds: seq<Cond>)

  // ----- reading statement text

  function NonEmpty(parts: seq<string>): seq<string> {
    if |parts| == 0 then []
    else (if parts[0] == "" then [] else [parts[0]]) + NonEmpty(parts[1..])
  }

  /** The blank-separated words of a text. */
  function Words(text: string): seq<string> {
    NonEmpty(Split(text, ' '))
  }

  function ParseConds(toks: seq<string>): Option<(seq<Cond>, seq<string>)> {
    if |toks| < 3 || !HasPrefix(toks[2], ":") then None
    else
      var c := Cond(toks[0], toks[1], toks[2][1..]);
      if |toks| > 3 && toks[3] == "AND" then
        match ParseConds(toks[4..])
        case None => None
        case Some((conds, rest)) => Some(([c] + conds, rest))
      else Some(([c], toks[3..]))
  }

  function ParseWhere(toks: seq<string>): Option<(seq<Cond>, seq<string>)> {
    if |toks| > 0 && toks[0] == "WHERE" then ParseConds(toks[1..]) else Some(([], toks))
  }

  function ParseTail(conds: seq<Cond>, toks: seq<string>): Option<Statement> {
    if |toks| == 12 && toks[0] == "ORDER" && toks[1] == "BY" && toks[4] == "OFFSET" && HasPrefix(toks[5], ":") &&
       toks[6] == "ROWS" && toks[7] == "FETCH" && toks[8] == "NEXT" && HasPrefix(toks[9], ":") &&
       toks[10] == "ROWS" && toks[11] == "ONLY;"
    then Some(Select(conds, toks[2], toks[3], toks[5][1..], toks[9][1..]))
    else None
  }

  function ParseStatement(text: string): Option<Statement> {
    var toks := Words(text);
    if ["SELECT", "*", "FROM", "users"] <= toks then
      match ParseWhere(toks[4..])
      case None => None
      case Some((conds, rest)) => ParseTail(conds, rest)
    else if ["SELECT", "COUNT(1)", "FROM", "users"] <= toks then
      match ParseWhere(toks[4..])
      case None => None
      case Some((conds, rest)) => if rest == [] then Some(Count(conds)) else None
    else None
  }

  /** The named placeholders of a text. */
  function Placeholders(text: string): set<string> {
    set w | w in Words(text) && HasPrefix(w, ":") :: w[1..]
  }

  // ----- WHERE in three-valued logic

  datatype Tri = True | False | Unknown

  function And(a: Tri, b: Tri): Tri {
    if a == False || b == False then False
    else if a == Unknown || b == Unknown then Unknown
    else True
  }

  predicate IsTextColumn(column: string) { column in {"name", "email", "department"} }

  predicate IsTimeColumn(column: string) { column in {"created_at", "updated_at"} }

  /** The condition is one the database can evaluate with these parameters. */
  predicate WellTyped(c: Cond, params: Params) {
    c.param in params &&
    match params[c.param]
    case TextV(p) => IsTextColumn(c.column) && (c.op == "=" || (c.op == "LIKE" && !Like.Dangling(p)))
    case ArrayV(_) => c.column == "roles" && c.op == "&&"
    case TimeV(_) => IsTimeColumn(c.column) && (c.op == ">=" || c.op == "<=")
    case IntV(_) => false
  }

  /** A text cell; `None` is NULL. */
  function TextCell(row: Row, column: string): Option<string>
    requires IsTextColumn(column)
  {
    if column == "name" then Some(row.name) else if column == "email" then Some(row.email) else row.department
  }

  function TimeCell(row: Row, column: string): Time
    requires IsTimeColumn(column)
  {
    if column == "created_at" then row.createdAt else row.updatedAt
  }

  /** `&&` on arrays: a common element. NULL elements match nothing. */
  predicate Overlap(a: Column, b: seq<string>) {
    exists i :: 0 <= i < |a| && a[i].Some? && a[i].value in b
  }

  function Truth(b: bool): Tri {
    if b then True else False
  }

  function EvalCond(row: Row, c: Cond, params: Params): Tri
    requires WellTyped(c, params)
  {
    match params[c.param]
    case TextV(p) =>
      (match TextCell(row, c.column)
       case None => Unknown
       case Some(s) => Truth(if c.op == "=" then s == p else Like.Matches(s, p)))
    case ArrayV(items) => Truth(Overlap(row.roles, items))
    case TimeV(t) =>
      // a bound time travels with the same precision as a stored one
      var cell := TimeCell(row, c.column);
      Truth(if c.op == ">=" then cell >= Micro(t) else cell <= Micro(t))
  }

  ghost predicate AllTyped(conds: seq<Cond>, params: Params) {
    forall c :: c in conds ==> WellTyped(c, params)
  }

  ghost function EvalWhere(row: Row, conds: seq<Cond>, params: Params): Tri
    requires AllTyped(conds, params)
  {
    if |conds| == 0 then True
    else
      assert conds[0] in conds;
      And(EvalCond(row, conds[0], params), EvalWhere(row, conds[1..], params))
  }

  /** WHERE keeps the rows for which it is True; Unknown drops a row just as False does. */
  ghost function Selected(table: set<Row>, conds: seq<Cond>, params: Params): set<Row>
    requires AllTyped(conds, params)
  {
    set row | row in table && EvalWhere(row, conds, params) == True
  }

  lemma {:induction false} EvalWhereTrue(row: Row, conds: seq<Cond>, params: Params)
    requires AllTyped(conds, params)
    ensures EvalWhere(row, conds, params) == True <==> forall c :: c in conds ==> EvalCond(row, c, params) == True
  {
    if |conds| > 0 {
      EvalWhereTrue(row, conds[1..], params);
      assert forall c :: c in conds <==> c == conds[0] || c in conds[1..];
    }
  }

  // ----- ORDER BY

  /** The collation: how the database compares text. */
  type Collation = (string, string) -> bool

  ghost predicate TotalOrder(coll: Collation) {
    && (forall a, b :: coll(a, b) || coll(b, a))
    && (forall a, b :: coll(a, b) && coll(b, a) ==> a == b)
    && (forall a, b, c :: coll(a, b) && coll(b, c) ==> coll(a, c))
  }

  predicate Sortable(column: string) { column in {"name", "email", "created_at", "updated_at"} }

  predicate KeyLeq(coll: Collation, column: string, a: Row, b: Row)
    requires Sortable(column)
  {
    if IsTimeColumn(column) then TimeCell(a, column) <= TimeCell(b, column)
    else coll(TextCell(a, column).value, TextCell(b, column).value)
  }

  datatype Ordering = Ordering(coll: Collation, column: string, descending: bool) {
    ghost predicate Valid() { TotalOrder(coll) && Sortable(column) }

    predicate Leq(a: Row, b: Row)
      requires Sortable(column)
    {
      if descending then KeyLeq(coll, column, b, a) else KeyLeq(coll, column, a, b)
    }

    /** Two rows that the ordering does not tell apart. */
    predicate Tied(a: Row, b: Row)
      requires Sortable(column)
    {
      Leq(a, b) && Leq(b, a)
    }
  }

  ghost predicate Sorted(o: Ordering, xs: seq<Row>)
    requires o.Valid()
  {
    forall i, j :: 0 <= i < j < |xs| ==> o.Leq(xs[i], xs[j])
  }

  /** `xs` lists each of `rows` once, in an order that ORDER BY allows. */
  ghost predicate Listing(o: Ordering, rows: set<Row>, xs: seq<Row>)
    requires o.Valid()
  {
    multiset(xs) == multiset(rows) && Sorted(o, xs)
  }

  lemma OrderingLaws(o: Ordering, a: Row, b: Row, c: Row)
    requires o.Valid()
    ensures o.Leq(a, b) || o.Leq(b, a)
    ensures o.Leq(a, b) && o.Leq(b, c) ==> o.Leq(a, c)
  {
  }

  lemma {:induction false} InsertSorted(o: Ordering, r: Row, xs: seq<Row>) returns (ys: seq<Row>)
    requires o.Valid() && Sorted(o, xs)
    ensures multiset(ys) == multiset(xs) + multiset{r} && Sorted(o, ys)
  {
    if |xs| == 0 {
      ys := [r];
    } else if o.Leq(r, xs[0]) {
      ys := [r] + xs;
      forall j | 0 <= j < |xs|
        ensures o.Leq(r, xs[j])
      {
        OrderingLaws(o, r, xs[0], xs[j]);
      }
    } else {
      OrderingLaws(o, r, xs[0], r);
      var zs := InsertSorted(o, r, xs[1..]);
      ys := [xs[0]] + zs;
      assert xs == [xs[0]] + xs[1..];
      forall j | 0 <= j < |zs|
        ensures o.Leq(xs[0], zs[j])
      {
        assert zs[j] in multiset(zs);
        assert zs[j] == r || zs[j] in xs[1..];
      }
    }
  }

  /** Every set of rows can be listed in every order. */
  lemma {:induction false} ListingExists(o: Ordering, rows: set<Row>) returns (xs: seq<Row>)
    requires o.Valid()
    ensures Listing(o, rows, xs)
  {
    if rows == {} {
      xs := [];
    } else {
      var r :| r in rows;
      var ys := ListingExists(o, rows - {r});
      assert multiset(rows) == multiset(rows - {r}) + multiset{r};
      xs := InsertSorted(o, r, ys);
    }
  }

  ghost predicate NoTies(o: Ordering, rows: set<Row>)
    requires o.Valid()
  {
    forall a, b :: a in rows && b in rows && o.Tied(a, b) ==> a == b
  }

  lemma ListingMember(o: Ordering, rows: set<Row>, xs: seq<Row>, r: Row)
    requires o.Valid() && Listing(o, rows, xs)
    ensures r in xs <==> r in rows
  {
    assert r in xs <==> r in multiset(xs);
  }

  lemma ListingTail(o: Ordering, rows: set<Row>, xs: seq<Row>)
    requires o.Valid() && Listing(o, rows, xs) && |xs| > 0
    ensures xs[0] in rows && Listing(o, rows - {xs[0]}, xs[1..])
  {
    assert xs == [xs[0]] + xs[1..];
    assert xs[0] in multiset(xs);
    assert multiset(xs[1..]) == multiset(xs) - multiset{xs[0]};
    assert multiset(rows - {xs[0]}) == multiset(rows) - multiset{xs[0]};
  }

  lemma {:induction false} ListingUnique(o: Ordering, rows: set<Row>, xs: seq<Row>, ys: seq<Row>)
    requires o.Valid() && NoTies(o, rows) && Listing(o, rows, xs) && Listing(o, rows, ys)
    ensures xs == ys
    decreases |xs|
  {
    SameLength(o, rows, xs, ys);
    if |xs| > 0 {
      HeadBelow(o, rows, xs, ys);
      HeadBelow(o, rows, ys, xs);
      ListingTail(o, rows, xs);
      ListingTail(o, rows, ys);
      ListingUnique(o, rows - {xs[0]}, xs[1..], ys[1..]);
      SameParts(xs, ys);
    }
  }

  lemma SameLength(o: Ordering, rows: set<Row>, xs: seq<Row>, ys: seq<Row>)
    requires o.Valid() && Listing(o, rows, xs) && Listing(o, rows, ys)
    ensures |xs| == |ys|
  {
    assert |xs| == |multiset(xs)| == |multiset(ys)| == |ys|;
  }

  /** The head of a listing comes before the head of any other. */
  lemma HeadBelow(o: Ordering, rows: set<Row>, xs: seq<Row>, ys: seq<Row>)
    requires o.Valid() && Listing(o, rows, xs) && Listing(o, rows, ys) && |xs| > 0 && |ys| > 0
    ensures o.Leq(xs[0], ys[0]) && ys[0] in rows
  {
    ListingMember(o, rows, ys, ys[0]);
    ListingMember(o, rows, xs, ys[0]);
    var k :| 0 <= k < |xs| && xs[k] == ys[0];
    OrderingLaws(o, xs[0], xs[0], xs[0]);
  }

  lemma SameParts(xs: seq<Row>, ys: seq<Row>)
    requires |xs| > 0 && |ys| > 0 && xs[0] == ys[0] && xs[1..] == ys[1..]
    ensures xs == ys
  {
    assert xs == [xs[0]] + xs[1..] && ys == [ys[0]] + ys[1..];
  }

  /** Swapping two tied rows of a listing gives another listing. */
  lemma SwapTied(o: Ordering, rows: set<Row>, xs: seq<Row>, i: nat, j: nat)
    requires o.Valid() && Listing(o, rows, xs) && i < |xs| && j < |xs| && o.Tied(xs[i], xs[j])
    ensures Listing(o, rows, xs[i := xs[j]][j := xs[i]])
  {
    var ys := xs[i := xs[j]][j := xs[i]];
    assert multiset(ys) == multiset(xs);
    forall p, q | 0 <= p < q < |ys|
      ensures o.Leq(ys[p], ys[q])
    {
      var a := if p == i then j else if p == j then i else p;
      var b := if q == i then j else if q == j then i else q;
      assert ys[p] == xs[a] && ys[q] == xs[b];
      SwapStep(o, xs, p, q, a, b);
    }
  }

  lemma SwapStep(o: Ordering, xs: seq<Row>, p: nat, q: nat, a: nat, b: nat)
    requires o.Valid() && Sorted(o, xs) && p < q < |xs| && a < |xs| && b < |xs|
    requires o.Tied(xs[p], xs[a]) && o.Tied(xs[q], xs[b])
    ensures o.Leq(xs[a], xs[b])
  {
    OrderingLaws(o, xs[a], xs[p], xs[q]);
    OrderingLaws(o, xs[a], xs[q], xs[b]);
  }

  /** ORDER BY determines the listing exactly when no two rows tie. */
  lemma ListingDetermined(o: Ordering, rows: set<Row>)
    requires o.Valid()
    ensures NoTies(o, rows) <==> forall xs, ys :: Listing(o, rows, xs) && Listing(o, rows, ys) ==> xs == ys
  {
    if NoTies(o, rows) {
      forall xs, ys | Listing(o, rows, xs) && Listing(o, rows, ys)
        ensures xs == ys
      {
        ListingUnique(o, rows, xs, ys);
      }
    } else {
      var a, b :| a in rows && b in rows && o.Tied(a, b) && a != b;
      var xs := ListingExists(o, rows);
      ListingMember(o, rows, xs, a);
      ListingMember(o, rows, xs, b);
      var i :| 0 <= i < |xs| && xs[i] == a;
      var j :| 0 <= j < |xs| && xs[j] == b;
      SwapTied(o, rows, xs, i, j);
      assert xs[i := xs[j]][j := xs[i]][i] == b;
    }
  }

  // ----- OFFSET / FETCH and replies

  function Min(a: int, b: int): int { if a <= b then a else b }

  /** `OFFSET off ROWS FETCH NEXT n ROWS ONLY` */
  function Slice<T>(xs: seq<T>, off: nat, n: nat): seq<T> {
    xs[Min(off, |xs|)..Min(off + n, |xs|)]
  }

  datatype Reply = Rows(rows: seq<Row>) | CountIs(n: nat) | Refused

  ghost predicate Executable(s: Statement, params: Params) {
    && AllTyped(s.conds, params)
    && (s.Select? ==>
          && Sortable(s.orderBy) && s.dir in {"asc", "desc"}
          && s.offset in params && params[s.offset].IntV? && params[s.offset].n >= 0
          && s.count in params && params[s.count].IntV? && params[s.count].n >= 0)
  }

  /** The replies a database may give to a parsed statement on a table. */
  ghost predicate Answers(coll: Collation, table: set<Row>, s: Statement, params: Params, reply: Reply)
    requires TotalOrder(coll)
  {
    if !Executable(s, params) then reply == Refused
    else
      match s
      case Count(conds) => reply == CountIs(|Selected(table, conds, params)|)
      case Select(conds, column, dir, off, n) =>
        reply.Rows? &&
        exists xs ::
          Listing(Ordering(coll, column, dir == "desc"), Selected(table, conds, params), xs) &&
          reply.rows == Slice(xs, params[off].n, params[n].n)
  }

  /** The replies a database may give to statement text: what it cannot read it refuses. */
  ghost predicate Admissible(coll: Collation, table: set<Row>, text: string, params: Params, reply: Reply)
    requires TotalOrder(coll)
  {
    match ParseStatement(text)
    case None => reply == Refused
    case Some(s) => Answers(coll, table, s, params, reply)
  }

  /** A database: the first argument lets equal requests be answered differently over time. */
  type Engine = (nat, set<Row>, string, Params) -> Reply

  ghost predicate Conforms(coll: Collation, db: Engine) {
    TotalOrder(coll) &&
    forall tick, table, text, params :: Admissible(coll, table, text, params, db(tick, table, text, params))
  }

  /** No request leaves a database without an admissible reply. */
  lemma ReplyExists(coll: Collation, table: set<Row>, text: string, params: Params) returns (reply: Reply)
    requires TotalOrder(coll)
    ensures Admissible(coll, table, text, params, reply)
  {
    reply := Refused;
    match ParseStatement(text)
    case None =>
    case Some(s) =>
      if Executable(s, params) {
        var rows := Selected(table, s.conds, params);
        if s.Count? {
          reply := CountIs(|rows|);
        } else {
          var xs := ListingExists(Ordering(coll, s.orderBy, s.dir == "desc"), rows);
          reply := Rows(Slice(xs, params[s.offset].n, params[s.count].n));
        }
      }
  }

  // ----- printing conditions and reading them back

  function CondText(c: Cond): string {
    c.column + " " + c.op + " :" + c.param
  }

  function CondTexts(conds: seq<Cond>): seq<string> {
    seq(|conds|, i requires 0 <= i < |conds| => CondText(conds[i]))
  }

  function CondTokens(conds: seq<Cond>): seq<string> {
    if |conds| == 0 then []
    else
      var first := [conds[0].column, conds[0].op, ":" + conds[0].param];
      if |conds| == 1 then first else first + ["AND"] + CondTokens(conds[1..])
  }

  predicate IsWord(w: string) { w != "" && ' ' !in w }

  predicate CleanCond(c: Cond) { IsWord(c.column) && IsWord(c.op) && ' ' !in c.param }

  lemma {:induction false} NonEmptyConcat(a: seq<string>, b: seq<string>)
    ensures NonEmpty(a + b) == NonEmpty(a) + NonEmpty(b)
  {
    if |a| == 0 {
      assert a + b == b;
    } else {
      assert (a + b)[1..] == a[1..] + b;
      NonEmptyConcat(a[1..], b);
    }
  }

  lemma WordsConcat(a: string, b: string)
    ensures Words(a + " " + b) == Words(a) + Words(b)
  {
    SplitAtSep(a, ' ', b);
    NonEmptyConcat(Split(a, ' '), Split(b, ' '));
  }

  lemma AppendAssoc<T>(a: seq<T>, b: seq<T>, c: seq<T>)
    ensures a + (b + c) == a + b + c
  {
  }

  /** A text that starts with a blank contributes its own words. */
  lemma WordsBlank(a: string, b: string)
    ensures Words(a + (" " + b)) == Words(a) + Words(b)
  {
    AppendAssoc(a, " ", b);
    WordsConcat(a, b);
  }

  lemma WordsOfWord(w: string)
    requires IsWord(w)
    ensures Words(w) == [w]
  {
    SplitNoSep(w, ' ');
    assert NonEmpty([w]) == [w] + NonEmpty([w][1..]);
  }

  lemma WordsCons(w: string, rest: string)
    requires IsWord(w)
    ensures Words(w + " " + rest) == [w] + Words(rest)
  {
    WordsConcat(w, rest);
    WordsOfWord(w);
  }

  lemma {:induction false} WordsOfJoin(ws: seq<string>)
    requires |ws| > 0 && forall i :: 0 <= i < |ws| ==> IsWord(ws[i])
    ensures Words(Join(ws, " ")) == ws
  {
    WordsOfWord(ws[0]);
    if |ws| == 1 {
      assert ws == [ws[0]];
    } else {
      WordsOfJoin(ws[1..]);
      WordsConcat(ws[0], Join(ws[1..], " "));
      assert ws == [ws[0]] + ws[1..];
    }
  }

  lemma CondWords(c: Cond)
    requires CleanCond(c)
    ensures Words(CondText(c)) == [c.column, c.op, ":" + c.param]
  {
    var placeholder := ":" + c.param;
    assert CondText(c) == c.column + " " + (c.op + " " + placeholder);
    WordsCons(c.column, c.op + " " + placeholder);
    WordsCons(c.op, placeholder);
    WordsOfWord(placeholder);
  }

  /** The words of conditions joined with " AND ". */
  lemma {:induction false} CondsWords(conds: seq<Cond>)
    requires |conds| > 0 && forall c :: c in conds ==> CleanCond(c)
    ensures Words(Join(CondTexts(conds), " AND ")) == CondTokens(conds)
  {
    CondWords(conds[0]);
    assert CondTexts(conds)[1..] == CondTexts(conds[1..]);
    if |conds| > 1 {
      var rest := Join(CondTexts(conds[1..]), " AND ");
      CondsWords(conds[1..]);
      assert CondText(conds[0]) + " AND " + rest == CondText(conds[0]) + " " + ("AND" + " " + rest);
      WordsConcat(CondText(conds[0]), "AND" + " " + rest);
      WordsCons("AND", rest);
    }
  }

  /** Reading printed conditions gives them back, up to the word that follows them. */
  lemma {:induction false} ParsePrintedConds(conds: seq<Cond>, rest: seq<string>)
    requires |conds| > 0 && (|rest| > 0 ==> rest[0] != "AND")
    ensures ParseConds(CondTokens(conds) + rest) == Some((conds, rest))
  {
    var toks := CondTokens(conds) + rest;
    assert toks[..3] == [conds[0].column, conds[0].op, ":" + conds[0].param];
    assert (":" + conds[0].param)[1..] == conds[0].param;
    if |conds| == 1 {
      assert toks[3..] == rest;
      assert conds == [conds[0]];
    } else {
      assert toks[3] == "AND";
      assert toks[4..] == CondTokens(conds[1..]) + rest;
      ParsePrintedConds(conds[1..], rest);
      assert conds == [conds[0]] + conds[1..];
    }
  }
}
