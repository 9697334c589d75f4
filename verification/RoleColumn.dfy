/**
 The roles column end to end: what `Value` writes (internal/domains/user/bus/roles.go), the driver
 reads and sends (vendor/github.com/jackc/pgx/v5/pgtype/pgtype.go), the database stores and prints,
 and `Scan` reads back.
 */
module RoleColumn {
  import opened Wrappers
  import opened GoStrings
  import opened Roles
  import opened PgArray
  import D = DriverArray

  type Column = seq<Element>

  /** What a role list is stored as. The driver sends the elements that it reads from the literal; the
      literal itself goes to the database only if the driver cannot read it. `None` is a failed write. */
  function Write(rs: seq<Role>): Option<Column> {
    match D.Parse(Print(rs))
    case Some(l) => D.Sent(l)
    case None => PgArray.In(Print(rs))
  }

  /** What `Scan` makes of the literal that the database prints for a stored column. */
  function Read(t: RoleTable, column: Column): Option<seq<Role>> {
    ParseArray(t, PgArray.Out(column))
  }

  ghost predicate ComesBack(t: RoleTable, rs: seq<Role>) {
    Write(rs).Some? && Read(t, Write(rs).value) == Some(rs)
  }

  ghost predicate AllDurable(t: RoleTable) {
    forall name :: name in t ==> D.Durable(name)
  }

  /** A table whose roles survive storage: every entry under its own name, every name durable. */
  ghost predicate Faithful(t: RoleTable) {
    SelfNamed(t) && AllDurable(t)
  }

  /** The elements that known roles are stored as. */
  function Elements(rs: seq<Role>): Column {
    D.ElementsOf(Names(rs))
  }

  lemma PrintText(rs: seq<Role>)
    ensures Print(rs) == "{" + (Join(Names(rs), ",") + "}")
  {
  }

  /** Known roles of a faithful table are stored as their elements. */
  lemma WriteKnown(t: RoleTable, rs: seq<Role>)
    requires Faithful(t) && Known(t, rs)
    ensures Write(rs) == Some(Elements(rs))
  {
    D.ReadsNames(Names(rs), "}");
    PrintText(rs);
  }

  // ----- scanning what the database prints

  /** A printed element ends in no brace: one with a brace is between quotes. */
  lemma PrintedEnds(x: Element)
    ensures PrintElement(x) != "" && Tight(PrintElement(x), IsBrace)
  {
  }

  lemma ReadNone(t: RoleTable)
    ensures Read(t, []) == Some([])
  {
    assert PrintElements([]) == [];
    TrimPadded("{", "", "}", IsBrace);
    assert "{" + "" + "}" == Out([]);
  }

  /** Scanning a printed column looks up its comma parts, however many elements they came from. */
  lemma ReadParts(t: RoleTable, column: Column)
    requires |column| > 0
    ensures var j := Join(PrintElements(column), ",");
            Read(t, column) == ParseMany(t, Unquoted(Split(j, ',')))
  {
    var parts := PrintElements(column);
    forall i | 0 <= i < |parts|
      ensures parts[i] != "" && Tight(parts[i], IsBrace)
    {
      PrintedEnds(column[i]);
    }
    JoinEnds(parts, ",");
    TrimPadded("{", Join(parts, ","), "}", IsBrace);
  }

  /** The printed element of a durable name has no comma, and the name between its quotes, if any. */
  lemma PrintedDurable(n: string)
    requires D.Durable(n)
    ensures var p := PrintElement(D.ElementOf(n)); ',' !in p && Trim(p, IsQuote) == n
  {
    EscapePlain(n);
    if n == "NULL" {
      NullScanned();
    } else {
      ScannedPlain(n);
    }
  }

  lemma NullScanned()
    ensures Trim(PrintElement(None), IsQuote) == "NULL"
  {
    TrimPadded("", "NULL", "", IsQuote);
    assert "" + "NULL" + "" == "NULL";
  }

  /** The elements of known roles read back as the roles. */
  lemma ReadKnown(t: RoleTable, rs: seq<Role>)
    requires Faithful(t) && Known(t, rs)
    ensures Read(t, Elements(rs)) == Some(rs)
  {
    var names := Names(rs);
    if |rs| == 0 {
      assert Elements(rs) == [] && rs == [];
      ReadNone(t);
    } else {
      var parts := PrintElements(Elements(rs));
      forall i | 0 <= i < |parts|
        ensures ',' !in parts[i] && Trim(parts[i], IsQuote) == names[i]
      {
        PrintedDurable(names[i]);
      }
      ReadParts(t, Elements(rs));
      SplitJoin(parts, ',');
      assert Unquoted(parts) == names;
      KnownNames(t, rs);
    }
  }

  /** Over a faithful table, a role list comes back from the database exactly when all of it is registered. */
  lemma ColumnRoundTrip(t: RoleTable, rs: seq<Role>)
    requires Faithful(t)
    ensures ComesBack(t, rs) <==> Known(t, rs)
  {
    if Known(t, rs) {
      WriteKnown(t, rs);
      ReadKnown(t, rs);
    }
    if ComesBack(t, rs) {
      ScannedSpells(t, Out(Write(rs).value), rs);
    }
  }

  // ----- exactly which names are durable

  lemma PartsCount(parts: seq<string>)
    requires |parts| >= 2
    ensures ',' in Join(parts, ",")
  {
    var j := Join(parts, ",");
    assert j[|parts[0]|] == ',';
  }

  /** A literal that scans to a single role was printed for a single element. */
  lemma SingleElement(t: RoleTable, column: Column, r: Role)
    requires Read(t, column) == Some([r])
    ensures |column| == 1
    ensures Trim(PrintElement(column[0]), IsQuote) in t
    ensures r == t[Trim(PrintElement(column[0]), IsQuote)]
  {
    if |column| == 0 {
      assert column == [];
      ReadNone(t);
    } else {
      var j := Join(PrintElements(column), ",");
      ReadParts(t, column);
      assert |Split(j, ',')| == 1;
      SplitSingle(j, ',');
      SplitNoSep(j, ',');
      assert Unquoted([j])[0] == Trim(j, IsQuote);
      if |column| >= 2 {
        PartsCount(PrintElements(column));
      } else {
        assert j == PrintElement(column[0]);
        var names := Unquoted([j]);
        assert ParseMany(t, names) == Some([r]) && names[0] in t && [r][0] == t[names[0]];
      }
    }
  }

  /** Quotes may be trimmed off a text, but no backslash. */
  lemma TrimCounts(s: string)
    ensures var n := Trim(s, IsQuote);
            && multiset(n)['\\'] == multiset(s)['\\'] && multiset(n)['"'] <= multiset(s)['"']
  {
    var l, r := TrimShape(s, IsQuote);
    NoBackslash(l);
    NoBackslash(r);
    assert s == l + Trim(s, IsQuote) + r;
  }

  lemma NoBackslash(s: string)
    requires All(s, IsQuote)
    ensures multiset(s)['\\'] == 0
  {
    assert '\\' !in s;
  }

  /** Both quotes around a text are trimmed off, unless nothing is left. */
  lemma TrimQuoted(e: string)
    ensures var n := Trim("\"" + e + "\"", IsQuote);
            && multiset(n)['\\'] == multiset(e)['\\'] && multiset(n)['"'] <= multiset(e)['"']
  {
    var s := "\"" + e + "\"";
    assert multiset(s) == multiset(e) + multiset{'"', '"'};
    TrimCounts(s);
    var l, r := TrimShape(s, IsQuote);
    var n := Trim(s, IsQuote);
    if n != "" {
      assert (l + n + r)[0] == '"' && (l + n + r)[|s| - 1] == '"';
      assert l != "" && r != "";
      EndQuotes(l, r);
      assert multiset(s) == multiset(l) + multiset(n) + multiset(r);
    }
  }

  lemma EndQuotes(l: string, r: string)
    requires l != "" && r != "" && All(l, IsQuote) && All(r, IsQuote)
    ensures multiset(l)['"'] >= 1 && multiset(r)['"'] >= 1
  {
    assert l[0] in l && r[0] in r;
  }

  /** A name scanned from a printed text element: escaping doubles backslashes and adds one per quote. */
  lemma ScannedCounts(e: string, n: string)
    requires Trim(PrintElement(Some(e)), IsQuote) == n
    ensures multiset(n)['\\'] == 2 * multiset(e)['\\'] + multiset(e)['"'] && multiset(n)['"'] <= multiset(e)['"']
    ensures '"' !in e && '\\' !in e ==> n == e
  {
    EscapeCounts(e);
    if NeedsQuotes(e) {
      TrimQuoted(Escape(e));
    } else {
      assert '"' !in e && '\\' !in e;
      assert multiset(e)['"'] == 0 && multiset(e)['\\'] == 0;
    }
    if '"' !in e && '\\' !in e {
      ScannedPlain(e);
    }
  }

  lemma ScannedPlain(e: string)
    requires '"' !in e && '\\' !in e
    ensures Trim(PrintElement(Some(e)), IsQuote) == e
  {
    EscapePlain(e);
    TrimPadded("\"", e, "\"", IsQuote);
    TrimPadded("", e, "", IsQuote);
    assert "" + e + "" == e;
  }

  /** If the driver reads the literal of one name as one element, and the name is scanned back from it, the
      name is durable: quotes and backslashes would not add up. */
  lemma DrivenDurable(n: string, end: string, e: string)
    requires end == "}" && D.Parse("{" + (n + end)).Some? && D.Parse("{" + (n + end)).value.items == [Some(e)]
    requires Trim(PrintElement(Some(e)), IsQuote) == n
    ensures D.Durable(n)
  {
    D.ParseBraced(n + end);
    D.OpenedOne(n + end, 0, e);
    assert multiset(n + end) == multiset(n) + multiset{'}'};
    ScannedCounts(e, n);
    assert D.FromBare(n + end, e);
    assert '"' !in e && '\\' !in e;
  }

  /** The name scanned from a printed text element is no longer than the escaped text, and is the escaped
      text if as long. */
  lemma PrintedName(e: string, n: string)
    requires Trim(PrintElement(Some(e)), IsQuote) == n
    ensures |n| <= |Escape(e)|
    ensures |n| == |Escape(e)| ==> n == Escape(e)
  {
    var j := PrintElement(Some(e));
    var l, r := TrimShape(j, IsQuote);
    if NeedsQuotes(e) {
      if n != "" {
        assert IsQuote(j[0]) && IsQuote(j[|j| - 1]);
        assert j[0] == (l + n + r)[0] && j[|j| - 1] == (l + n + r)[|j| - 1];
        assert |l| >= 1 && |r| >= 1;
        if |n| == |Escape(e)| {
          assert |l| == 1 && |r| == 1;
          assert n == j[1..|j| - 1] == Escape(e);
        }
      }
    } else {
      EscapePlain(e);
      if |n| == |e| {
        assert l == "" && r == "";
      }
    }
  }

  /** A tail of a text that ends in a non-blank is blank only if it is empty. */
  lemma BlankTail(s: string, k: nat)
    requires 0 < |s| && k <= |s| && !IsBlank(s[|s| - 1]) && SkipBlanks(s[k..]) == ""
    ensures k == |s|
  {
    var blanks := TrimLeftShape(s[k..], IsBlank);
    assert blanks == s[k..];
  }

  /** The database reads the literal of a one-role list, if at all, as one element spanning the name. */
  lemma SingleLiteral(n: string, x: Element, end: string)
    requires end == "}" && In("{" + (n + end)) == Some([x])
    ensures ReadElement(n + end) == Some((x, end))
  {
    var s := n + end;
    InBraces(s);
    var (y, rest) := ReadElement(s).value;
    SuffixOfElement(s);
    var k := |s| - |rest|;
    assert rest[1..] == s[k + 1..];
    assert rest[0] == '}' && y == x;
    BlankTail(s, k + 1);
  }

  /** What is left after an element is the end of the text. */
  lemma SuffixOfElement(s: string)
    requires ReadElement(s).Some?
    ensures var rest := ReadElement(s).value.1; |rest| <= |s| && rest == s[|s| - |rest|..]
  {
    var (x, rest) := ReadElement(s).value;
    var blanks := TrimLeftShape(s, IsBlank);
    var s1 := SkipBlanks(s);
    if s1[0] == '"' {
      var q := QuotedRaw(s1[1..]);
      var more := TrimLeftShape(InQuotes(s1[1..]).value.1, IsBlank);
      assert s1 == "\"" + s1[1..];
      assert s == (blanks + "\"" + q + "\"" + more) + rest;
    } else {
      var raw := BareRaw(s1);
      assert s == (blanks + raw) + rest;
    }
  }

  lemma SameBefore(a: string, b: string, end: string)
    requires a + end == b + end
    ensures a == b
  {
    assert |a + end| == |a| + |end| && |b + end| == |b| + |end|;
    assert (a + end)[..|a|] == a && (b + end)[..|b|] == b;
  }

  /** A name that the database itself reads as a text element, and that is scanned back from it, is one that
      the driver could have read. */
  lemma FallbackReadsBare(n: string, e: string, end: string)
    requires end == "}" && ReadElement(n + end) == Some((Some(e), end))
    requires Trim(PrintElement(Some(e)), IsQuote) == n
    ensures D.ReadsBare(n)
  {
    PrintedName(e, n);
    EscapeIsWellEscaped(e);
    var w := ElementRaw(n + end);
    SameBefore(n, w, end);
  }

  /** The driver reads one such name. */
  lemma ReadsOne(n: string, end: string)
    requires end == "}" && D.ReadsBare(n)
    ensures D.Parse("{" + (n + end)).Some?
  {
    D.ReadsNames([n], end);
    assert Join([n], ",") == n;
  }

  /** A role that comes back from the database in a list of its own has a durable name. */
  lemma SingletonDurable(t: RoleTable, n: string)
    requires SelfNamed(t) && ComesBack(t, [Role(n)])
    ensures D.Durable(n)
  {
    var end := "}";
    assert Names([Role(n)]) == [n] && Print([Role(n)]) == "{" + (n + end);
    var column := Write([Role(n)]).value;
    SingleElement(t, column, Role(n));
    var x := column[0];
    assert column == [x];
    if x.None? {
      NullScanned();
    } else if D.Parse("{" + (n + end)).Some? {
      D.SentOne(D.Parse("{" + (n + end)).value, x);
      DrivenDurable(n, end, x.value);
    } else {
      SingleLiteral(n, x, end);
      FallbackReadsBare(n, x.value, end);
      ReadsOne(n, end);
    }
  }

  /** Every role list over a table comes back from the database exactly when every name in the table is
      durable: non-empty, free of commas, closing braces, double quotes and backslashes, and not starting
      with an opening brace. */
  lemma DurableExactly(t: RoleTable)
    requires SelfNamed(t)
    ensures (forall rs :: Known(t, rs) ==> ComesBack(t, rs)) <==> AllDurable(t)
  {
    if AllDurable(t) {
      forall rs | Known(t, rs)
        ensures ComesBack(t, rs)
      {
        ColumnRoundTrip(t, rs);
      }
    }
    if forall rs :: Known(t, rs) ==> ComesBack(t, rs) {
      forall name | name in t
        ensures D.Durable(name)
      {
        assert Known(t, [Role(name)]);
        SingletonDurable(t, name);
      }
    }
  }

  // ----- columns and names

  /** Names of a faithful table that are stored as the same elements are the same. */
  lemma ElementsDetermine(a: seq<string>, b: seq<string>)
    requires D.ElementsOf(a) == D.ElementsOf(b)
    ensures a == b
  {
    assert |a| == |D.ElementsOf(a)| == |b|;
    forall i | 0 <= i < |a|
      ensures a[i] == b[i]
    {
      assert D.ElementsOf(a)[i] == D.ElementsOf(b)[i];
    }
  }

  /** A role's own element is in the column of a role list exactly when the role is in the list. */
  lemma ElementOfRole(roles: seq<Role>, r: Role)
    ensures D.ElementOf(r.value) in Elements(roles) <==> r in roles
  {
    if i :| 0 <= i < |roles| && Elements(roles)[i] == D.ElementOf(r.value) {
      assert roles[i] == r;
    }
    if r in roles {
      var i :| 0 <= i < |roles| && roles[i] == r;
      assert Elements(roles)[i] == D.ElementOf(r.value);
    }
  }

  /** Looking for a role by its bare name, as the role filter does, finds exactly the stored lists that have
      it, unless the name is NULL: a stored list of just that role is missed. */
  lemma FoundByName(t: RoleTable, r: Role)
    requires Faithful(t) && r.value in t
    ensures (forall rs :: Known(t, rs) ==> Write(rs).Some? && (Some(r.value) in Write(rs).value <==> r in rs)) <==>
            r.value != "NULL"
  {
    if r.value != "NULL" {
      forall rs | Known(t, rs)
        ensures Write(rs).Some? && (Some(r.value) in Write(rs).value <==> r in rs)
      {
        WriteKnown(t, rs);
        ElementOfRole(rs, r);
      }
    } else {
      assert Known(t, [r]) && r in [r];
      WriteKnown(t, [r]);
      assert Elements([r])[0] == None;
    }
  }

  /** The two roles of the service are durable, and stored as their own names. */
  lemma ServiceRolesFaithful()
    ensures Faithful(VALID_ROLES)
    ensures Elements([ROLE_ADMIN, ROLE_USER]) == [Some("admin"), Some("user")]
  {
    assert Names([ROLE_ADMIN, ROLE_USER]) == ["admin", "user"];
  }

  /** A list with the admin role is stored with the element that spells it. */
  lemma AdminElement(roles: seq<Role>)
    ensures ROLE_ADMIN in roles ==> Some(ROLE_ADMIN.value) in Elements(roles)
  {
    ElementOfRole(roles, ROLE_ADMIN);
  }

  lemma AdminColumn()
    ensures Write([ROLE_ADMIN]) == Some([Some("admin")])
  {
    ServiceRolesFaithful();
    WriteKnown(VALID_ROLES, [ROLE_ADMIN]);
    assert Elements([ROLE_ADMIN]) == [Some("admin")];
  }
}
