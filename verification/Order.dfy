/** Sort orders: internal/domains/user/bus/order.go and internal/domains/user/store/userdb/order.go. */
module Order {
  import opened Wrappers
  import opened GoStrings

  datatype Field = Field(name: string, dir: string)

  const ASC := "asc"
  const DESC := "desc"
  const ORDER_BY_SET: map<string, string> :=
    map["name" := "name", "email" := "email", "createdAt" := "createdAt", "updatedAt" := "updatedAt"]
  const DIRECTIONS_SET: map<string, string> := map["asc" := "asc", "desc" := "desc"]
  const DEFAULT_ORDER := Field("createdAt", ASC)

  /** The store's column for each sortable field. */
  const ORDER_BY_COLUMNS: map<string, string> :=
    map["name" := "name", "email" := "email", "createdAt" := "created_at", "updatedAt" := "updated_at"]

  function ParseOrderBy(query: string): Option<Field> {
    if query == "" then Some(DEFAULT_ORDER)
    else
      var parts := Split(query, ',');
      var fieldName := Trim(parts[0], IsSpace);
      if fieldName !in ORDER_BY_SET then None
      else if |parts| == 1 then Some(Field(ORDER_BY_SET[fieldName], ASC))
      else if |parts| == 2 then
        if parts[1] !in DIRECTIONS_SET then None
        else Some(Field(ORDER_BY_SET[fieldName], DIRECTIONS_SET[parts[1]]))
      else None
  }

  function OrderByClause(field: Field): Option<string> {
    if field.name !in ORDER_BY_COLUMNS then None
    else Some(" ORDER BY " + ORDER_BY_COLUMNS[field.name] + " " + field.dir)
  }

  /** A known field name between optional white space. */
  ghost predicate Names(text: string, field: string) {
    field in {"name", "email", "createdAt", "updatedAt"} && exists l, r :: All(l, IsSpace) && All(r, IsSpace) && text == l + field + r
  }

  /** The order-by language: nothing, which means by creation, ascending; a padded field, which means
      ascending; or a padded field, one comma and a bare direction. */
  ghost predicate Orders(query: string, f: Field) {
    || (query == "" && f == Field("createdAt", "asc"))
    || (Names(query, f.name) && f.dir == "asc")
    || (f.dir in {"asc", "desc"} && exists text :: Names(text, f.name) && query == text + "," + f.dir)
  }

  lemma NamesTrims(text: string, field: string)
    ensures Names(text, field) ==> text != "" && ',' !in text
    ensures Names(text, field) <==> field in {"name", "email", "createdAt", "updatedAt"} && Trim(text, IsSpace) == field
  {
    if Names(text, field) {
      var l, r :| All(l, IsSpace) && All(r, IsSpace) && text == l + field + r;
      assert field == "name" || field == "email" || field == "createdAt" || field == "updatedAt";
      assert field != "" && ',' !in field && Tight(field, IsSpace);
      TrimPadded(l, field, r, IsSpace);
    }
    if field in {"name", "email", "createdAt", "updatedAt"} && Trim(text, IsSpace) == field {
      var l, r := TrimShape(text, IsSpace);
    }
  }

  lemma ParsedOrders(query: string, f: Field)
    requires ParseOrderBy(query) == Some(f)
    ensures Orders(query, f)
  {
    if query != "" {
      var parts := Split(query, ',');
      JoinSplit(query, ',');
      NamesTrims(parts[0], f.name);
      if |parts| == 2 {
        assert query == parts[0] + "," + f.dir;
      }
    }
  }

  lemma DirectionParts(text: string, dir: string)
    requires ',' !in text && dir in {"asc", "desc"}
    ensures Split(text + "," + dir, ',') == [text, dir]
  {
    assert dir == "asc" || dir == "desc";
    SplitAtSep(text, ',', dir);
    SplitNoSep(text, ',');
    SplitNoSep(dir, ',');
  }

  lemma OrdersParse(query: string, f: Field)
    requires Orders(query, f)
    ensures ParseOrderBy(query) == Some(f)
  {
    if query == "" && f == Field("createdAt", "asc") {
    } else if Names(query, f.name) && f.dir == "asc" {
      NamesTrims(query, f.name);
      SplitNoSep(query, ',');
    } else {
      var text :| Names(text, f.name) && query == text + "," + f.dir;
      NamesTrims(text, f.name);
      DirectionParts(text, f.dir);
    }
  }

  /** `ParseOrderBy` accepts exactly the order-by language, with the meaning it spells. */
  lemma OrderGrammar(query: string, f: Field)
    ensures ParseOrderBy(query) == Some(f) <==> Orders(query, f)
  {
    if ParseOrderBy(query) == Some(f) {
      ParsedOrders(query, f);
    }
    if Orders(query, f) {
      OrdersParse(query, f);
    }
  }

  /** An order parsed from a request is always one the store can translate. */
  lemma ParsedOrderTranslates(query: string)
    requires ParseOrderBy(query).Some?
    ensures OrderByClause(ParseOrderBy(query).value).Some?
    ensures ParseOrderBy(query).value.dir in {ASC, DESC}
  {
    var f := ParseOrderBy(query).value;
    if query != "" {
      var parts := Split(query, ',');
      assert f.name == Trim(parts[0], IsSpace) && f.name in ORDER_BY_COLUMNS;
    }
  }
}
