/**
 Roles and their PostgreSQL `TEXT[]` codec: internal/domains/user/bus/roles.go.
 `Print` is what `Value` writes and `ParseArray` is what `Scan` reads; the laws
 hold for any role table, not only for the two roles the service registers.
 */
module Roles {
  import opened Wrappers
  import opened GoStrings

  datatype Role = Role(value: string)

  type RoleTable = map<string, Role>

  const ROLE_ADMIN := Role("admin")
  const ROLE_USER := Role("user")
  const VALID_ROLES: RoleTable := map["admin" := ROLE_ADMIN, "user" := ROLE_USER]

  /** Every entry is filed under its own name: the only kind of table `newRole` builds. */
  ghost predicate SelfNamed(t: RoleTable) {
    forall name :: name in t ==> t[name] == Role(name)
  }

  predicate IsBrace(c: char) { c == '{' || c == '}' }

  predicate IsQuote(c: char) { c == '"' }

  /** The names that survive the codec: non-empty, comma-free, no brace or quote at either end. */
  ghost predicate Codable(name: string) {
    name != "" && ',' !in name && Tight(name, IsBrace) && Tight(name, IsQuote)
  }

  ghost predicate AllCodable(t: RoleTable) {
    forall name :: name in t ==> Codable(name)
  }

  ghost predicate Known(t: RoleTable, rs: seq<Role>) {
    forall i :: 0 <= i < |rs| ==> rs[i].value in t
  }

  function Names(rs: seq<Role>): seq<string> {
    seq(|rs|, i requires 0 <= i < |rs| => rs[i].value)
  }

  /** The text of a role list as a PostgreSQL array literal. */
  function Print(rs: seq<Role>): string {
    "{" + Join(Names(rs), ",") + "}"
  }

  function ParseMany(t: RoleTable, names: seq<string>): Option<seq<Role>> {
    if forall i :: 0 <= i < |names| ==> names[i] in t
    then Some(seq(|names|, i requires 0 <= i < |names| => t[names[i]]))
    else None
  }

  function Unquoted(parts: seq<string>): seq<string> {
    seq(|parts|, i requires 0 <= i < |parts| => Trim(parts[i], IsQuote))
  }

  /** The roles an array literal denotes to `Scan`, or `None` when it is rejected. */
  function ParseArray(t: RoleTable, arr: string): Option<seq<Role>> {
    var s := Trim(arr, IsBrace);
    if s == "" then Some([]) else ParseMany(t, Unquoted(Split(s, ',')))
  }

  // ----- the state-changing code

  /** The package variable `validRoles` and `newRole`, the only writer of it. */
  class Registry {
    var validRoles: RoleTable

    constructor ()
      ensures validRoles == map["admin" := Role("admin"), "user" := Role("user")] == VALID_ROLES
      ensures SelfNamed(validRoles) && AllCodable(validRoles)
    {
      validRoles := map[];
      new;
      var admin := NewRole("admin");
      var user := NewRole("user");
      assert validRoles == VALID_ROLES;
    }

    method NewRole(val: string) returns (r: Role)
      modifies this
      ensures r.value == val && validRoles == old(validRoles)[val := r]
      ensures old(SelfNamed(validRoles)) ==> SelfNamed(validRoles)
    {
      r := Role(val);
      validRoles := validRoles[val := r];
    }
  }

  /** What the driver hands to `Scan`. */
  datatype DbValue = Null | Bytes(text: string) | Text(text: string) | Other

  /** `RoleSlice`: the receiver that `Scan` assigns through. */
  class RoleSlice {
    var roles: seq<Role>

    constructor (rs: seq<Role>)
      ensures roles == rs
    {
      roles := rs;
    }

    method Value() returns (text: string)
      ensures text == Print(roles)
    {
      if |roles| == 0 {
        return "{}";
      }
      var quoted := new string[|roles|];
      var i := 0;
      while i < |roles|
        invariant 0 <= i <= |roles| == quoted.Length
        invariant forall j :: 0 <= j < i ==> quoted[j] == roles[j].value
      {
        quoted[i] := roles[i].value;
        i := i + 1;
      }
      assert quoted[..] == Names(roles);
      return "{" + Join(quoted[..], ",") + "}";
    }

    method Scan(t: RoleTable, val: DbValue) returns (ok: bool)
      modifies this
      ensures ok == (val.Null? || (!val.Other? && ParseArray(t, val.text).Some?))
      ensures roles == (if !ok then old(roles) else if val.Null? then [] else ParseArray(t, val.text).value)
    {
      match val
      case Null =>
        roles := [];
        ok := true;
      case Bytes(text) =>
        ok := ParsePostgresArray(t, text);
      case Text(text) =>
        ok := ParsePostgresArray(t, text);
      case Other =>
        ok := false;
    }

    method ParsePostgresArray(t: RoleTable, arr: string) returns (ok: bool)
      modifies this
      ensures ok == ParseArray(t, arr).Some?
      ensures roles == if ok then ParseArray(t, arr).value else old(roles)
    {
      var s := Trim(arr, IsBrace);
      if s == "" {
        roles := [];
        return true;
      }
      var elements := Split(s, ',');
      var parsed := new Role[|elements|](_ => Role(""));
      ghost var names := Unquoted(elements);
      var i := 0;
      while i < |elements|
        invariant 0 <= i <= |elements| == parsed.Length
        invariant forall j :: 0 <= j < i ==> names[j] in t && parsed[j] == t[names[j]]
        invariant roles == old(roles)
      {
        var elem := Trim(elements[i], IsQuote);
        assert elem == names[i];
        if elem !in t {
          return false;
        }
        parsed[i] := t[elem];
        i := i + 1;
      }
      assert parsed[..] == ParseMany(t, names).value;
      roles := parsed[..];
      ok := true;
    }
  }

  method RolesToString(roles: seq<Role>) returns (res: seq<string>)
    ensures res == Names(roles)
  {
    var a := new string[|roles|];
    var i := 0;
    while i < |roles|
      invariant 0 <= i <= |roles| == a.Length
      invariant forall j :: 0 <= j < i ==> a[j] == roles[j].value
    {
      a[i] := roles[i].value;
      i := i + 1;
    }
    res := a[..];
  }

  method ParseManyRoles(t: RoleTable, rr: seq<string>) returns (res: Option<seq<Role>>)
    ensures res == ParseMany(t, rr)
  {
    var a := new Role[|rr|](_ => Role(""));
    var i := 0;
    while i < |rr|
      invariant 0 <= i <= |rr| == a.Length
      invariant forall j :: 0 <= j < i ==> rr[j] in t && a[j] == t[rr[j]]
    {
      if rr[i] !in t {
        return None;
      }
      a[i] := t[rr[i]];
      i := i + 1;
    }
    assert a[..] == ParseMany(t, rr).value;
    res := Some(a[..]);
  }

  // ----- the language Scan accepts

  /** `e` is `name` between two runs of double quotes, either of which may be empty. */
  ghost predicate Quoted(e: string, name: string) {
    exists l, r :: All(l, IsQuote) && All(r, IsQuote) && e == l + name + r
  }

  ghost predicate QuotedAll(es: seq<string>, names: seq<string>) {
    |es| == |names| && forall i :: 0 <= i < |es| ==> Quoted(es[i], names[i])
  }

  /** `arr` spells the names: braces around comma-separated, optionally quoted, elements. */
  ghost predicate Spells(arr: string, names: seq<string>) {
    exists l, es, r ::
      All(l, IsBrace) && All(r, IsBrace) && QuotedAll(es, names) && arr == l + Join(es, ",") + r
  }

  lemma {:induction false} JoinEnds(parts: seq<string>, sep: string)
    requires |parts| >= 1 && forall i :: 0 <= i < |parts| ==> parts[i] != ""
    ensures var j := Join(parts, sep); var z := parts[|parts| - 1];
            j != "" && j[0] == parts[0][0] && j[|j| - 1] == z[|z| - 1]
  {
    if |parts| > 1 {
      JoinEnds(parts[1..], sep);
    }
  }

  lemma QuotedCodable(e: string, name: string)
    requires Quoted(e, name) && Codable(name)
    ensures e != "" && ',' !in e && Tight(e, IsBrace) && Trim(e, IsQuote) == name
  {
    var l, r :| All(l, IsQuote) && All(r, IsQuote) && e == l + name + r;
    TrimPadded(l, name, r, IsQuote);
    assert e[0] == if l == "" then name[0] else l[0];
    assert e[|e| - 1] == if r == "" then name[|name| - 1] else r[|r| - 1];
  }

  lemma KnownNames(t: RoleTable, rs: seq<Role>)
    requires SelfNamed(t)
    ensures Known(t, rs) <==> ParseMany(t, Names(rs)) == Some(rs)
  {
    if Known(t, rs) {
      assert ParseMany(t, Names(rs)).value == rs;
    }
    if ParseMany(t, Names(rs)) == Some(rs) {
      assert forall i :: 0 <= i < |rs| ==> Names(rs)[i] in t;
    }
  }

  /** Every spelling of known roles scans to exactly those roles. */
  lemma SpelledScans(t: RoleTable, arr: string, rs: seq<Role>)
    requires SelfNamed(t) && AllCodable(t) && Known(t, rs) && Spells(arr, Names(rs))
    ensures ParseArray(t, arr) == Some(rs)
  {
    var names := Names(rs);
    var l, es, r :|
      All(l, IsBrace) && All(r, IsBrace) && QuotedAll(es, names) && arr == l + Join(es, ",") + r;
    var inner := Join(es, ",");
    if |es| == 0 {
      TrimPadded(l, "", r, IsBrace);
    } else {
      forall i | 0 <= i < |es|
        ensures es[i] != "" && ',' !in es[i] && Tight(es[i], IsBrace) && Trim(es[i], IsQuote) == names[i]
      {
        QuotedCodable(es[i], names[i]);
      }
      JoinEnds(es, ",");
      TrimPadded(l, inner, r, IsBrace);
      SplitJoin(es, ',');
      assert Unquoted(es) == names;
      KnownNames(t, rs);
    }
  }

  /** Whatever scans is a spelling of known roles. */
  lemma ScannedSpells(t: RoleTable, arr: string, rs: seq<Role>)
    requires SelfNamed(t) && ParseArray(t, arr) == Some(rs)
    ensures Known(t, rs) && Spells(arr, Names(rs))
  {
    var l, r := TrimShape(arr, IsBrace);
    var s := Trim(arr, IsBrace);
    if s == "" {
      assert QuotedAll([], Names(rs)) && arr == l + Join([], ",") + r;
    } else {
      var es := Split(s, ',');
      var names := Unquoted(es);
      assert forall i :: 0 <= i < |names| ==> names[i] in t && rs[i] == Role(names[i]);
      assert Names(rs) == names;
      JoinSplit(s, ',');
      forall i | 0 <= i < |es|
        ensures Quoted(es[i], names[i])
      {
        var ql, qr := TrimShape(es[i], IsQuote);
      }
      assert QuotedAll(es, names) && arr == l + Join(es, ",") + r;
    }
  }

  /** The grammar of `Scan`: a text yields `rs` exactly when it spells `rs` and all of `rs` is known. */
  lemma ScanGrammar(t: RoleTable, arr: string, rs: seq<Role>)
    requires SelfNamed(t) && AllCodable(t)
    ensures ParseArray(t, arr) == Some(rs) <==> Known(t, rs) && Spells(arr, Names(rs))
  {
    if ParseArray(t, arr) == Some(rs) {
      ScannedSpells(t, arr, rs);
    }
    if Known(t, rs) && Spells(arr, Names(rs)) {
      SpelledScans(t, arr, rs);
    }
  }

  // ----- round trips

  lemma PrintSpells(rs: seq<Role>)
    ensures Spells(Print(rs), Names(rs))
  {
    var names := Names(rs);
    forall i | 0 <= i < |names|
      ensures Quoted(names[i], names[i])
    {
      assert All("", IsQuote) && names[i] == "" + names[i] + "";
    }
    assert QuotedAll(names, names) && All("{", IsBrace) && All("}", IsBrace);
  }

  /** Printing then scanning gives a role list back exactly when all its roles are registered. */
  lemma RoundTrip(t: RoleTable, rs: seq<Role>)
    requires SelfNamed(t) && AllCodable(t)
    ensures ParseArray(t, Print(rs)) == Some(rs) <==> Known(t, rs)
  {
    PrintSpells(rs);
    ScanGrammar(t, Print(rs), rs);
  }

  ghost predicate RoundTrips(t: RoleTable) {
    forall rs :: Known(t, rs) ==> ParseArray(t, Print(rs)) == Some(rs)
  }

  /** A role that comes back from a list of its own has a codable name. */
  lemma SingletonCodable(t: RoleTable, name: string)
    requires SelfNamed(t) && ParseArray(t, Print([Role(name)])) == Some([Role(name)])
    ensures Codable(name)
  {
    var arr := Print([Role(name)]);
    assert Names([Role(name)]) == [name] && arr == "{" + name + "}";
    var l, r := TrimShape(arr, IsBrace);
    var s := Trim(arr, IsBrace);
    assert |Split(s, ',')| == 1;
    SplitSingle(s, ',');
    SplitNoSep(s, ',');
    var ql, qr := TrimShape(s, IsQuote);
    assert Unquoted([s])[0] == Trim(s, IsQuote) == name;
    assert IsBrace((l + s + r)[0]) && IsBrace((l + s + r)[|l + s + r| - 1]);
    assert l != "" && r != "";
    assert s == name;
  }

  /** The codec is faithful on a table exactly when every name in it is codable. */
  lemma RoundTripExactly(t: RoleTable)
    requires SelfNamed(t)
    ensures RoundTrips(t) <==> AllCodable(t)
  {
    if AllCodable(t) {
      forall rs | Known(t, rs)
        ensures ParseArray(t, Print(rs)) == Some(rs)
      {
        RoundTrip(t, rs);
      }
    }
    if RoundTrips(t) {
      forall name | name in t
        ensures Codable(name)
      {
        assert Known(t, [Role(name)]);
        SingletonCodable(t, name);
      }
    }
  }

  /** How the database may print the array: any choice of elements in double quotes. */
  function ArrayText(names: seq<string>, quoted: seq<bool>): string
    requires |names| == |quoted|
  {
    "{" + Join(QuoteSome(names, quoted), ",") + "}"
  }

  function QuoteSome(names: seq<string>, quoted: seq<bool>): seq<string>
    requires |names| == |quoted|
  {
    seq(|names|, i requires 0 <= i < |names| => if quoted[i] then "\"" + names[i] + "\"" else names[i])
  }

  /** Whichever elements the database quotes, the same roles are read. */
  lemma QuotingIsIrrelevant(t: RoleTable, rs: seq<Role>, quoted: seq<bool>)
    requires SelfNamed(t) && AllCodable(t) && Known(t, rs) && |quoted| == |rs|
    ensures ParseArray(t, ArrayText(Names(rs), quoted)) == Some(rs)
  {
    var names := Names(rs);
    var es := QuoteSome(names, quoted);
    forall i | 0 <= i < |es|
      ensures Quoted(es[i], names[i])
    {
      var q := if quoted[i] then "\"" else "";
      assert All(q, IsQuote) && es[i] == q + names[i] + q;
    }
    assert QuotedAll(es, names) && All("{", IsBrace) && All("}", IsBrace);
    SpelledScans(t, ArrayText(names, quoted), rs);
  }

  /** Scanning is a normaliser: re-printing what was read and scanning again changes nothing. */
  lemma ScanNormalises(t: RoleTable, arr: string)
    requires SelfNamed(t) && AllCodable(t) && ParseArray(t, arr).Some?
    ensures ParseArray(t, Print(ParseArray(t, arr).value)) == ParseArray(t, arr)
  {
    ScannedSpells(t, arr, ParseArray(t, arr).value);
    RoundTrip(t, ParseArray(t, arr).value);
  }

  /** `RolesToString` and `ParseManyRoles` are mutual inverses on registered roles. */
  lemma ConversionsInvert(t: RoleTable, rs: seq<Role>, names: seq<string>)
    requires SelfNamed(t)
    ensures ParseMany(t, Names(rs)) == Some(rs) <==> Known(t, rs)
    ensures ParseMany(t, names).Some? ==> Names(ParseMany(t, names).value) == names
  {
    KnownNames(t, rs);
  }
}
