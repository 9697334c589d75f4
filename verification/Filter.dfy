/**
 The WHERE compiler, internal/domains/user/store/userdb/filter.go, and the statement
 texts that `Store.Query` and `Store.Count` build around it.
 */
module Filter {
  import opened Wrappers
  import opened GoStrings
  import opened Roles
  import opened Users
  import opened Sql
  import opened Order
  import Like

  /** Absent fields are nil; `Some([])` is a non-nil empty role slice. */
  datatype QueryFilter = QueryFilter(
    name: Option<string>, department: Option<string>, roles: Option<seq<Role>>,
    startCreatedAt: Option<Time>, endCreatedAt: Option<Time>)

  /** The reference meaning of a filter: every field that is set holds of the row. */
  ghost predicate Meets(f: QueryFilter, row: Row) {
    && (f.name.Some? ==> Like.Matches(row.name, Like.Pattern(f.name.value)))
    && (f.department.Some? ==> row.department == f.department)
    && (f.roles.Some? ==> exists r :: r in f.roles.value && Some(r.value) in row.roles)
    && (f.startCreatedAt.Some? ==> Micro(f.startCreatedAt.value) <= row.createdAt)
    && (f.endCreatedAt.Some? ==> row.createdAt <= Micro(f.endCreatedAt.value))
  }

  ghost function Meeting(table: set<Row>, f: QueryFilter): set<Row> {
    set row | row in table && Meets(f, row)
  }

  // ----- what the compiler emits

  const NAME_COND := Cond("name", "LIKE", "name")
  const DEPARTMENT_COND := Cond("department", "=", "department")
  const ROLES_COND := Cond("roles", "&&", "roles")
  const START_COND := Cond("created_at", ">=", "start_created_at")
  const END_COND := Cond("created_at", "<=", "end_created_at")

  function OneIf<T>(b: bool, x: T): seq<T> {
    if b then [x] else []
  }

  function WhereConds(f: QueryFilter): seq<Cond> {
    OneIf(f.name.Some?, NAME_COND) + OneIf(f.department.Some?, DEPARTMENT_COND) + OneIf(f.roles.Some?, ROLES_COND) +
    OneIf(f.startCreatedAt.Some?, START_COND) + OneIf(f.endCreatedAt.Some?, END_COND)
  }

  function NameParam(f: QueryFilter): Params {
    if f.name.Some? then map["name" := TextV(Like.Pattern(f.name.value))] else map[]
  }

  function DepartmentParam(f: QueryFilter): Params {
    if f.department.Some? then map["department" := TextV(f.department.value)] else map[]
  }

  function RolesParam(f: QueryFilter): Params {
    if f.roles.Some? then map["roles" := ArrayV(Roles.Names(f.roles.value))] else map[]
  }

  function StartParam(f: QueryFilter): Params {
    if f.startCreatedAt.Some? then map["start_created_at" := TimeV(f.startCreatedAt.value)] else map[]
  }

  function EndParam(f: QueryFilter): Params {
    if f.endCreatedAt.Some? then map["end_created_at" := TimeV(f.endCreatedAt.value)] else map[]
  }

  function WhereParams(f: QueryFilter): Params {
    NameParam(f) + DepartmentParam(f) + RolesParam(f) + StartParam(f) + EndParam(f)
  }

  function WhereText(conds: seq<Cond>): string {
    if |conds| == 0 then "" else " WHERE " + Join(CondTexts(conds), " AND ")
  }

  /** The statement buffer and the named-parameter map that the store fills step by step. */
  class StatementBuffer {
    var text: string
    var data: Params

    constructor (text: string, data: Params)
      ensures this.text == text && this.data == data
    {
      this.text := text;
      this.data := data;
    }

    method WriteString(s: string)
      modifies this`text
      ensures text == old(text) + s
    {
      text := text + s;
    }
  }

  method ApplyFilters(f: QueryFilter, buf: StatementBuffer)
    modifies buf
    ensures buf.text == old(buf.text) + WhereText(WhereConds(f))
    ensures buf.data == old(buf.data) + WhereParams(f)
  {
    var whereClause: seq<string> := [];
    ghost var data := buf.data;

    if f.name.Some? {
      buf.data := buf.data["name" := TextV("%" + f.name.value + "%")];
      whereClause := whereClause + ["name LIKE :name"];
    }
    ghost var conds := OneIf(f.name.Some?, NAME_COND);
    ghost var params := NameParam(f);
    assert whereClause == CondTexts(conds) by { NameText(); }
    assert buf.data == data + params;

    if f.department.Some? {
      buf.data := buf.data["department" := TextV(f.department.value)];
      whereClause := whereClause + ["department = :department"];
    }
    assert whereClause == CondTexts(conds + OneIf(f.department.Some?, DEPARTMENT_COND)) by {
      DepartmentText();
      TextsStep(conds, f.department.Some?, DEPARTMENT_COND);
    }
    assert buf.data == data + (params + DepartmentParam(f)) by {
      ParamsStep(data, params, DepartmentParam(f));
    }
    conds := conds + OneIf(f.department.Some?, DEPARTMENT_COND);
    params := params + DepartmentParam(f);

    if f.roles.Some? {
      buf.data := buf.data["roles" := ArrayV(Roles.Names(f.roles.value))];
      whereClause := whereClause + ["roles && :roles"];
    }
    assert whereClause == CondTexts(conds + OneIf(f.roles.Some?, ROLES_COND)) by {
      RolesText();
      TextsStep(conds, f.roles.Some?, ROLES_COND);
    }
    assert buf.data == data + (params + RolesParam(f)) by {
      ParamsStep(data, params, RolesParam(f));
    }
    conds := conds + OneIf(f.roles.Some?, ROLES_COND);
    params := params + RolesParam(f);

    if f.startCreatedAt.Some? {
      buf.data := buf.data["start_created_at" := TimeV(f.startCreatedAt.value)];
      whereClause := whereClause + ["created_at >= :start_created_at"];
    }
    assert whereClause == CondTexts(conds + OneIf(f.startCreatedAt.Some?, START_COND)) by {
      StartText();
      TextsStep(conds, f.startCreatedAt.Some?, START_COND);
    }
    assert buf.data == data + (params + StartParam(f)) by {
      ParamsStep(data, params, StartParam(f));
    }
    conds := conds + OneIf(f.startCreatedAt.Some?, START_COND);
    params := params + StartParam(f);

    if f.endCreatedAt.Some? {
      buf.data := buf.data["end_created_at" := TimeV(f.endCreatedAt.value)];
      whereClause := whereClause + ["created_at <= :end_created_at"];
    }
    assert whereClause == CondTexts(conds + OneIf(f.endCreatedAt.Some?, END_COND)) by {
      EndText();
      TextsStep(conds, f.endCreatedAt.Some?, END_COND);
    }
    assert buf.data == data + (params + EndParam(f)) by {
      ParamsStep(data, params, EndParam(f));
    }
    conds := conds + OneIf(f.endCreatedAt.Some?, END_COND);
    params := params + EndParam(f);

    WriteWhere(whereClause, conds, buf);
  }

  method WriteWhere(whereClause: seq<string>, ghost conds: seq<Cond>, buf: StatementBuffer)
    requires whereClause == CondTexts(conds)
    modifies buf`text
    ensures buf.text == old(buf.text) + WhereText(conds)
  {
    if |whereClause| > 0 {
      buf.WriteString(" WHERE ");
      var q := Join(whereClause, " AND ");
      buf.WriteString(q);
      AppendAssoc(old(buf.text), " WHERE ", q);
    }
  }

  lemma NameText()
    ensures CondText(NAME_COND) == "name LIKE :name"
  {
  }

  lemma DepartmentText()
    ensures CondText(DEPARTMENT_COND) == "department = :department"
  {
  }

  lemma RolesText()
    ensures CondText(ROLES_COND) == "roles && :roles"
  {
  }

  lemma StartText()
    ensures CondText(START_COND) == "created_at >= :start_created_at"
  {
  }

  lemma EndText()
    ensures CondText(END_COND) == "created_at <= :end_created_at"
  {
  }

  lemma TextsStep(conds: seq<Cond>, b: bool, c: Cond)
    ensures CondTexts(conds + OneIf(b, c)) == if b then CondTexts(conds) + [CondText(c)] else CondTexts(conds)
  {
  }

  lemma ParamsStep(data: Params, params: Params, more: Params)
    ensures data + (params + more) == data + params + more
    ensures forall k, v :: more == map[k := v] ==> data + params + more == (data + params)[k := v]
    ensures more == map[] ==> data + params + more == data + params
  {
  }

  // ----- what the conditions mean

  /** Parameters that bind the filter's names as `ApplyFilters` does. */
  ghost predicate Binds(params: Params, f: QueryFilter) {
    && (f.name.Some? ==> "name" in params && params["name"] == TextV(Like.Pattern(f.name.value)))
    && (f.department.Some? ==> "department" in params && params["department"] == TextV(f.department.value))
    && (f.roles.Some? ==> "roles" in params && params["roles"] == ArrayV(Roles.Names(f.roles.value)))
    && (f.startCreatedAt.Some? ==>
          "start_created_at" in params && params["start_created_at"] == TimeV(f.startCreatedAt.value))
    && (f.endCreatedAt.Some? ==>
          "end_created_at" in params && params["end_created_at"] == TimeV(f.endCreatedAt.value))
  }

  lemma SumAt(a: Params, b: Params, c: Params, d: Params, e: Params, k: string)
    requires k in a + b + c + d + e
    ensures (a + b + c + d + e)[k] ==
            if k in e then e[k] else if k in d then d[k] else if k in c then c[k] else if k in b then b[k] else a[k]
  {
  }

  /** Each field's parameter is bound under its own key, which no other field uses. */
  lemma OwnParam(f: QueryFilter, k: string)
    ensures k in NameParam(f) ==> k in WhereParams(f) && WhereParams(f)[k] == NameParam(f)[k]
    ensures k in DepartmentParam(f) ==> k in WhereParams(f) && WhereParams(f)[k] == DepartmentParam(f)[k]
    ensures k in RolesParam(f) ==> k in WhereParams(f) && WhereParams(f)[k] == RolesParam(f)[k]
    ensures k in StartParam(f) ==> k in WhereParams(f) && WhereParams(f)[k] == StartParam(f)[k]
    ensures k in EndParam(f) ==> k in WhereParams(f) && WhereParams(f)[k] == EndParam(f)[k]
  {
    if k in WhereParams(f) {
      SumAt(NameParam(f), DepartmentParam(f), RolesParam(f), StartParam(f), EndParam(f), k);
    }
  }

  lemma BindsByValue(params: Params, f: QueryFilter)
    requires forall k :: k in WhereParams(f) ==> k in params && params[k] == WhereParams(f)[k]
    ensures Binds(params, f)
  {
    OwnParam(f, "name");
    OwnParam(f, "department");
    OwnParam(f, "roles");
    OwnParam(f, "start_created_at");
    OwnParam(f, "end_created_at");
  }

  /** The filter's own parameters bind it, also beside parameters of other names. */
  lemma ParamsBind(others: Params, f: QueryFilter)
    ensures Binds(others + WhereParams(f), f)
    ensures forall k :: k in others && k !in WhereParams(f) ==> (others + WhereParams(f))[k] == others[k]
  {
    BindsByValue(others + WhereParams(f), f);
  }

  /** Which conditions a filter emits. */
  lemma Emitted(f: QueryFilter, c: Cond)
    ensures c in WhereConds(f) <==>
            (c == NAME_COND && f.name.Some?) || (c == DEPARTMENT_COND && f.department.Some?) ||
            (c == ROLES_COND && f.roles.Some?) || (c == START_COND && f.startCreatedAt.Some?) ||
            (c == END_COND && f.endCreatedAt.Some?)
  {
  }

  lemma RolesOverlap(row: Row, roles: seq<Role>)
    ensures Overlap(row.roles, Roles.Names(roles)) <==> exists r :: r in roles && Some(r.value) in row.roles
  {
    if i :| 0 <= i < |row.roles| && row.roles[i].Some? && row.roles[i].value in Roles.Names(roles) {
      var j :| 0 <= j < |roles| && Roles.Names(roles)[j] == row.roles[i].value;
      assert roles[j] in roles && Some(roles[j].value) in row.roles;
    }
    if r :| r in roles && Some(r.value) in row.roles {
      var j :| 0 <= j < |roles| && roles[j] == r;
      assert Roles.Names(roles)[j] == r.value;
      var i :| 0 <= i < |row.roles| && row.roles[i] == Some(r.value);
    }
  }

  /** Whether a row passes the filter field that a condition was emitted for. */
  ghost predicate Passes(f: QueryFilter, c: Cond, row: Row) {
    && (c == NAME_COND && f.name.Some? ==> Like.Matches(row.name, Like.Pattern(f.name.value)))
    && (c == DEPARTMENT_COND && f.department.Some? ==> row.department == f.department)
    && (c == ROLES_COND && f.roles.Some? ==> exists r :: r in f.roles.value && Some(r.value) in row.roles)
    && (c == START_COND && f.startCreatedAt.Some? ==> Micro(f.startCreatedAt.value) <= row.createdAt)
    && (c == END_COND && f.endCreatedAt.Some? ==> row.createdAt <= Micro(f.endCreatedAt.value))
  }

  /** Each emitted condition is executable, and True of a row exactly when the row passes its field. */
  lemma CondMeans(f: QueryFilter, c: Cond, params: Params, row: Row)
    requires Binds(params, f) && c in WhereConds(f)
    ensures WellTyped(c, params)
    ensures EvalCond(row, c, params) == True <==> Passes(f, c, row)
  {
    Emitted(f, c);
    if c == NAME_COND {
      Like.LikeIsContainsExactly(f.name.value);
    } else if c == ROLES_COND {
      RolesOverlap(row, f.roles.value);
    }
  }

  lemma MeetsAll(f: QueryFilter, row: Row)
    ensures Meets(f, row) <==> forall c :: c in WhereConds(f) ==> Passes(f, c, row)
  {
    forall c
      ensures c in WhereConds(f) <==>
              (c == NAME_COND && f.name.Some?) || (c == DEPARTMENT_COND && f.department.Some?) ||
              (c == ROLES_COND && f.roles.Some?) || (c == START_COND && f.startCreatedAt.Some?) ||
              (c == END_COND && f.endCreatedAt.Some?)
    {
      Emitted(f, c);
    }
    if forall c :: c in WhereConds(f) ==> Passes(f, c, row) {
      assert f.name.Some? ==> Passes(f, NAME_COND, row);
      assert f.department.Some? ==> Passes(f, DEPARTMENT_COND, row);
      assert f.roles.Some? ==> Passes(f, ROLES_COND, row);
      assert f.startCreatedAt.Some? ==> Passes(f, START_COND, row);
      assert f.endCreatedAt.Some? ==> Passes(f, END_COND, row);
    }
  }

  lemma WhereTyped(f: QueryFilter, params: Params)
    requires Binds(params, f)
    ensures AllTyped(WhereConds(f), params)
  {
    forall c | c in WhereConds(f)
      ensures WellTyped(c, params)
    {
      var anyRow := Row(0, "", "", [], "", None, false, 0, 0);
      CondMeans(f, c, params, anyRow);
    }
  }

  lemma WhereMeans(f: QueryFilter, params: Params, row: Row)
    requires Binds(params, f) && AllTyped(WhereConds(f), params)
    ensures EvalWhere(row, WhereConds(f), params) == True <==> Meets(f, row)
  {
    var conds := WhereConds(f);
    EvalWhereTrue(row, conds, params);
    MeetsAll(f, row);
    forall c | c in conds
      ensures EvalCond(row, c, params) == True <==> Passes(f, c, row)
    {
      CondMeans(f, c, params, row);
    }
  }

  /** The emitted conditions select exactly the rows that meet the filter. */
  lemma WhereSelects(f: QueryFilter, params: Params, table: set<Row>)
    requires Binds(params, f)
    ensures AllTyped(WhereConds(f), params) && Selected(table, WhereConds(f), params) == Meeting(table, f)
  {
    WhereTyped(f, params);
    forall row | row in table
      ensures EvalWhere(row, WhereConds(f), params) == True <==> Meets(f, row)
    {
      WhereMeans(f, params, row);
    }
  }

  /** A NULL department never meets a department filter, and a non-nil empty role list meets no row. */
  lemma NullAndEmpty(f: QueryFilter, row: Row)
    ensures f.department.Some? && row.department == None ==> !Meets(f, row)
    ensures f.roles == Some([]) ==> !Meets(f, row)
  {
  }

  /** On stored, whole-microsecond times the end bound is exact, and the start bound also admits the
      stored microsecond that the start falls in. */
  lemma TimeBounds(createdAt: Time, bound: Time)
    requires Micro(createdAt) == createdAt
    ensures createdAt <= Micro(bound) <==> createdAt <= bound
    ensures Micro(bound) <= createdAt <==> bound <= createdAt || createdAt == Micro(bound)
  {
  }

  // ----- the whole statements

  const SELECT_WORDS := ["SELECT", "*", "FROM", "users"]
  const COUNT_WORDS := ["SELECT", "COUNT(1)", "FROM", "users"]
  const PAGING_WORDS := ["OFFSET", ":offset", "ROWS", "FETCH", "NEXT", ":rows_per_page", "ROWS", "ONLY;"]

  // the source's string constants, blank for blank
  const SELECT_PREFIX := Join(SELECT_WORDS, " ") + " "
  const COUNT_PREFIX := Join(COUNT_WORDS, " ")
  const PAGING := " " + Join(PAGING_WORDS, " ")

  function QueryText(conds: seq<Cond>, orderClause: string): string {
    SELECT_PREFIX + WhereText(conds) + orderClause + PAGING
  }

  function CountText(conds: seq<Cond>): string {
    COUNT_PREFIX + WhereText(conds)
  }

  function WhereTokens(conds: seq<Cond>): seq<string> {
    if |conds| == 0 then [] else ["WHERE"] + CondTokens(conds)
  }

  ghost predicate CleanConds(conds: seq<Cond>) {
    forall c :: c in conds ==> CleanCond(c) && c.column[0] != ':' && c.op[0] != ':'
  }

  lemma WhereClean(f: QueryFilter)
    ensures CleanConds(WhereConds(f))
  {
    forall c | c in WhereConds(f)
      ensures CleanCond(c) && c.column[0] != ':' && c.op[0] != ':'
    {
      Emitted(f, c);
      KnownClean(c);
    }
  }

  lemma KnownClean(c: Cond)
    requires c == NAME_COND || c == DEPARTMENT_COND || c == ROLES_COND || c == START_COND || c == END_COND
    ensures CleanCond(c) && c.column[0] != ':' && c.op[0] != ':'
  {
  }

  lemma WhereWords(a: string, conds: seq<Cond>)
    requires CleanConds(conds)
    ensures Words(a + WhereText(conds)) == Words(a) + WhereTokens(conds)
  {
    if |conds| == 0 {
      assert a + "" == a;
    } else {
      var body := Join(CondTexts(conds), " AND ");
      WhereSentence(body);
      WordsBlank(a, "WHERE" + " " + body);
      WordsCons("WHERE", body);
      CondsWords(conds);
    }
  }

  lemma WhereSentence(body: string)
    ensures " WHERE " + body == " " + ("WHERE" + " " + body)
  {
  }

  /** A sentence appended after a blank contributes its own words. */
  lemma SentenceWords(a: string, ws: seq<string>)
    requires |ws| > 0 && forall i :: 0 <= i < |ws| ==> IsWord(ws[i])
    ensures Words(a + (" " + Join(ws, " "))) == Words(a) + ws
  {
    WordsBlank(a, Join(ws, " "));
    WordsOfJoin(ws);
  }

  /** A trailing blank adds no word. */
  lemma TrailingBlank(ws: seq<string>)
    requires |ws| > 0 && forall i :: 0 <= i < |ws| ==> IsWord(ws[i])
    ensures Words(Join(ws, " ") + " ") == ws
  {
    assert Join(ws, " ") + " " == Join(ws, " ") + " " + "";
    WordsConcat(Join(ws, " "), "");
    WordsOfJoin(ws);
    assert NonEmpty([""]) == [] && ws + [] == ws;
  }

  function OrderTokens(field: Field): seq<string>
    requires field.name in ORDER_BY_COLUMNS
  {
    ["ORDER", "BY", ORDER_BY_COLUMNS[field.name], field.dir]
  }

  lemma JoinFour(a: string, b: string, c: string, d: string)
    ensures Join([a, b, c, d], " ") == a + " " + (b + " " + (c + " " + d))
  {
    assert [a, b, c, d][1..] == [b, c, d] && [b, c, d][1..] == [c, d] && [c, d][1..] == [d];
    assert Join([c, d], " ") == c + " " + d;
    assert Join([b, c, d], " ") == b + " " + (c + " " + d);
  }

  lemma OrderText(col: string, dir: string)
    ensures " ORDER BY " + col + " " + dir == " " + ("ORDER" + " " + ("BY" + " " + (col + " " + dir)))
  {
  }

  lemma OrderSentence(field: Field)
    requires OrderByClause(field).Some?
    ensures OrderByClause(field).value == " " + Join(OrderTokens(field), " ")
    ensures IsWord(ORDER_BY_COLUMNS[field.name])
  {
    var col := ORDER_BY_COLUMNS[field.name];
    assert col == "name" || col == "email" || col == "created_at" || col == "updated_at";
    JoinFour("ORDER", "BY", col, field.dir);
    OrderText(col, field.dir);
  }

  function TailTokens(field: Field): seq<string>
    requires field.name in ORDER_BY_COLUMNS
  {
    OrderTokens(field) + PAGING_WORDS
  }

  lemma HeadWords(conds: seq<Cond>)
    requires CleanConds(conds)
    ensures Words(SELECT_PREFIX + WhereText(conds)) == SELECT_WORDS + WhereTokens(conds)
  {
    TrailingBlank(SELECT_WORDS);
    WhereWords(SELECT_PREFIX, conds);
  }

  lemma OrderWords(head: string, field: Field)
    requires OrderByClause(field).Some? && IsWord(field.dir)
    ensures Words(head + OrderByClause(field).value) == Words(head) + OrderTokens(field)
  {
    OrderSentence(field);
    SentenceWords(head, OrderTokens(field));
  }

  lemma PagingWords(head: string)
    ensures Words(head + PAGING) == Words(head) + PAGING_WORDS
  {
    SentenceWords(head, PAGING_WORDS);
  }

  lemma TailWords(head: string, field: Field)
    requires OrderByClause(field).Some? && IsWord(field.dir)
    ensures Words(head + OrderByClause(field).value + PAGING) == Words(head) + TailTokens(field)
  {
    OrderWords(head, field);
    PagingWords(head + OrderByClause(field).value);
    AppendAssoc(Words(head), OrderTokens(field), PAGING_WORDS);
  }

  lemma QueryWords(conds: seq<Cond>, field: Field)
    requires CleanConds(conds) && OrderByClause(field).Some? && IsWord(field.dir)
    ensures Words(QueryText(conds, OrderByClause(field).value)) == SELECT_WORDS + (WhereTokens(conds) + TailTokens(field))
  {
    HeadWords(conds);
    TailWords(SELECT_PREFIX + WhereText(conds), field);
    AppendAssoc(SELECT_WORDS, WhereTokens(conds), TailTokens(field));
  }

  lemma ParseWhereTokens(conds: seq<Cond>, rest: seq<string>)
    requires |rest| > 0 ==> rest[0] != "AND" && rest[0] != "WHERE"
    ensures ParseWhere(WhereTokens(conds) + rest) == Some((conds, rest))
  {
    if |conds| == 0 {
      assert WhereTokens(conds) + rest == rest;
    } else {
      AppendAssoc(["WHERE"], CondTokens(conds), rest);
      ParseWhereHead(CondTokens(conds) + rest);
      ParsePrintedConds(conds, rest);
    }
  }

  lemma ParseWhereHead(toks: seq<string>)
    ensures ParseWhere(["WHERE"] + toks) == ParseConds(toks)
  {
    assert (["WHERE"] + toks)[1..] == toks;
  }

  lemma TailParses(conds: seq<Cond>, field: Field)
    requires field.name in ORDER_BY_COLUMNS
    ensures ParseTail(conds, TailTokens(field)) ==
            Some(Select(conds, ORDER_BY_COLUMNS[field.name], field.dir, "offset", "rows_per_page"))
  {
    assert ":offset"[1..] == "offset" && ":rows_per_page"[1..] == "rows_per_page";
  }

  lemma QueryTokensParse(conds: seq<Cond>, field: Field, text: string)
    requires field.name in ORDER_BY_COLUMNS
    requires Words(text) == SELECT_WORDS + (WhereTokens(conds) + TailTokens(field))
    ensures ParseStatement(text) ==
            Some(Select(conds, ORDER_BY_COLUMNS[field.name], field.dir, "offset", "rows_per_page"))
  {
    var toks := Words(text);
    assert toks[..4] == SELECT_WORDS && toks[4..] == WhereTokens(conds) + TailTokens(field);
    ParseWhereTokens(conds, TailTokens(field));
    TailParses(conds, field);
  }

  /** The text built for a page query reads back as the intended statement: its conditions, order and
      window depend on which filter fields are set, never on their values. */
  lemma QueryTextParses(f: QueryFilter, field: Field)
    requires OrderByClause(field).Some? && IsWord(field.dir)
    ensures ParseStatement(QueryText(WhereConds(f), OrderByClause(field).value)) ==
            Some(Select(WhereConds(f), ORDER_BY_COLUMNS[field.name], field.dir, "offset", "rows_per_page"))
  {
    var conds := WhereConds(f);
    WhereClean(f);
    QueryWords(conds, field);
    QueryTokensParse(conds, field, QueryText(conds, OrderByClause(field).value));
  }

  lemma CountTokensParse(conds: seq<Cond>, text: string)
    requires Words(text) == COUNT_WORDS + WhereTokens(conds)
    ensures ParseStatement(text) == Some(Count(conds))
  {
    var toks := Words(text);
    assert toks[..4] == COUNT_WORDS && toks[4..] == WhereTokens(conds) + [];
    assert toks[1] != "*";
    ParseWhereTokens(conds, []);
  }

  /** The text built for a count reads back as a count over the same conditions. */
  lemma CountTextParses(f: QueryFilter)
    ensures ParseStatement(CountText(WhereConds(f))) == Some(Count(WhereConds(f)))
  {
    var conds := WhereConds(f);
    WhereClean(f);
    WordsOfJoin(COUNT_WORDS);
    WhereWords(COUNT_PREFIX, conds);
    CountTokensParse(conds, CountText(conds));
  }

  // ----- placeholders

  lemma {:induction false} CondPlaceholders(conds: seq<Cond>, k: string)
    requires CleanConds(conds)
    ensures ":" + k in WhereTokens(conds) <==> exists c :: c in conds && k == c.param
  {
    var w := ":" + k;
    assert w[0] == ':' && w[1..] == k;
    if |conds| > 0 {
      var first := conds[0];
      assert (":" + first.param)[1..] == first.param;
      assert w == ":" + first.param <==> k == first.param;
      CondPlaceholders(conds[1..], k);
      assert forall c :: c in conds <==> c == first || c in conds[1..];
      assert w != "AND" && w != "WHERE" && w != first.column && w != first.op;
      assert w in CondTokens(conds) <==> k == first.param || w in CondTokens(conds[1..]);
      assert w in WhereTokens(conds) <==> w in CondTokens(conds);
    }
  }

  lemma TailPlaceholders(field: Field, k: string)
    requires field.name in ORDER_BY_COLUMNS && field.dir in {ASC, DESC}
    ensures ":" + k in TailTokens(field) <==> k in {"offset", "rows_per_page"}
  {
    var w := ":" + k;
    var col := ORDER_BY_COLUMNS[field.name];
    assert col == "name" || col == "email" || col == "created_at" || col == "updated_at";
    assert w[0] == ':' && w[1..] == k;
    assert ":offset"[1..] == "offset" && ":rows_per_page"[1..] == "rows_per_page";
    assert w in TailTokens(field) ==> w == ":offset" || w == ":rows_per_page";
    if k == "offset" { assert w == ":offset" && TailTokens(field)[5] == w; }
    if k == "rows_per_page" { assert w == ":rows_per_page" && TailTokens(field)[9] == w; }
  }

  lemma PlaceholderWord(text: string, k: string)
    ensures k in Placeholders(text) <==> ":" + k in Words(text)
  {
    var w := ":" + k;
    assert w[1..] == k;
    if k in Placeholders(text) {
      var v :| v in Words(text) && HasPrefix(v, ":") && v[1..] == k;
      assert v == [v[0]] + v[1..];
    }
  }

  lemma SumKeys(a: Params, b: Params, c: Params, d: Params, e: Params, k: string)
    ensures k in a + b + c + d + e <==> k in a || k in b || k in c || k in d || k in e
  {
  }

  /** The conditions name exactly the parameters that the compiler binds. */
  lemma ParamsNamed(f: QueryFilter, k: string)
    ensures k in WhereParams(f) <==> exists c :: c in WhereConds(f) && k == c.param
  {
    SumKeys(NameParam(f), DepartmentParam(f), RolesParam(f), StartParam(f), EndParam(f), k);
    if c :| c in WhereConds(f) && k == c.param {
      Emitted(f, c);
    }
    if k in WhereParams(f) {
      var c := if k == "name" then NAME_COND else if k == "department" then DEPARTMENT_COND
               else if k == "roles" then ROLES_COND else if k == "start_created_at" then START_COND else END_COND;
      Emitted(f, c);
    }
  }

  lemma TokenPlaceholders(conds: seq<Cond>, field: Field, k: string, toks: seq<string>)
    requires CleanConds(conds) && field.name in ORDER_BY_COLUMNS && field.dir in {ASC, DESC}
    requires toks == SELECT_WORDS + (WhereTokens(conds) + TailTokens(field))
    ensures ":" + k in toks <==> (exists c :: c in conds && k == c.param) || k in {"offset", "rows_per_page"}
  {
    var w := ":" + k;
    NotSelectWord(k);
    CondPlaceholders(conds, k);
    TailPlaceholders(field, k);
    assert w in toks <==> w in SELECT_WORDS || w in WhereTokens(conds) + TailTokens(field);
  }

  lemma NotSelectWord(k: string)
    ensures ":" + k !in SELECT_WORDS
  {
    assert (":" + k)[0] == ':';
  }

  /** `keys` are the parameter names of the conditions. */
  ghost predicate NamesParams(keys: set<string>, conds: seq<Cond>) {
    forall k :: k in keys <==> exists c :: c in conds && k == c.param
  }

  lemma TextPlaceholders(conds: seq<Cond>, keys: set<string>, field: Field, text: string)
    requires CleanConds(conds) && field.name in ORDER_BY_COLUMNS && field.dir in {ASC, DESC}
    requires Words(text) == SELECT_WORDS + (WhereTokens(conds) + TailTokens(field)) && NamesParams(keys, conds)
    ensures Placeholders(text) == keys + {"offset", "rows_per_page"}
  {
    forall k
      ensures k in Placeholders(text) <==> k in keys || k == "offset" || k == "rows_per_page"
    {
      TextPlaceholder(conds, field, text, k);
    }
    SameKeys(Placeholders(text), keys);
  }

  lemma SameKeys(ps: set<string>, keys: set<string>)
    requires forall k :: k in ps <==> k in keys || k == "offset" || k == "rows_per_page"
    ensures ps == keys + {"offset", "rows_per_page"}
  {
  }

  lemma TextPlaceholder(conds: seq<Cond>, field: Field, text: string, k: string)
    requires CleanConds(conds) && field.name in ORDER_BY_COLUMNS && field.dir in {ASC, DESC}
    requires Words(text) == SELECT_WORDS + (WhereTokens(conds) + TailTokens(field))
    ensures k in Placeholders(text) <==> (exists c :: c in conds && k == c.param) || k in {"offset", "rows_per_page"}
  {
    PlaceholderWord(text, k);
    TokenPlaceholders(conds, field, k, Words(text));
  }

  lemma KeysNamed(f: QueryFilter)
    ensures NamesParams(WhereParams(f).Keys, WhereConds(f))
  {
    forall k
      ensures k in WhereParams(f).Keys <==> exists c :: c in WhereConds(f) && k == c.param
    {
      ParamsNamed(f, k);
    }
  }

  /** The placeholders of a page query are exactly the keys of its parameter map. */
  lemma QueryPlaceholders(f: QueryFilter, field: Field)
    requires OrderByClause(field).Some? && field.dir in {ASC, DESC}
    ensures Placeholders(QueryText(WhereConds(f), OrderByClause(field).value)) ==
            WhereParams(f).Keys + {"offset", "rows_per_page"}
  {
    WhereClean(f);
    KeysNamed(f);
    QueryWords(WhereConds(f), field);
    TextPlaceholders(WhereConds(f), WhereParams(f).Keys, field, QueryText(WhereConds(f), OrderByClause(field).value));
  }
}
