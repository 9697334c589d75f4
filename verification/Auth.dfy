/** Role checks: `Authorized` of internal/auth/auth.go and `isAdmin` of the user handler. */
module Auth {
  import opened Roles

  /** Some claimed role name is in the required set. */
  ghost predicate Allows(claimed: seq<string>, roleSet: set<string>) {
    exists i :: 0 <= i < |claimed| && claimed[i] in roleSet
  }

  predicate IsAdmin(roles: seq<Role>) {
    ROLE_ADMIN in roles
  }

  method Authorized(claimed: seq<string>, roleSet: set<string>) returns (ok: bool)
    ensures ok <==> Allows(claimed, roleSet)
  {
    var i := 0;
    while i < |claimed|
      invariant 0 <= i <= |claimed|
      invariant forall j :: 0 <= j < i ==> claimed[j] !in roleSet
    {
      if claimed[i] in roleSet {
        return true;
      }
      i := i + 1;
    }
    ok := false;
  }

  /** Claims made from a user's roles are allowed exactly when one of those roles is in the set. */
  lemma ClaimsAllowed(roles: seq<Role>, roleSet: set<string>)
    ensures Allows(Names(roles), roleSet) <==> exists r :: r in roles && r.value in roleSet
    ensures Allows(Names(roles), {"admin"}) <==> IsAdmin(roles)
  {
    if r :| r in roles && r.value in roleSet {
      var i :| 0 <= i < |roles| && roles[i] == r;
      assert Names(roles)[i] in roleSet;
    }
    if IsAdmin(roles) {
      var i :| 0 <= i < |roles| && roles[i] == ROLE_ADMIN;
      assert Names(roles)[i] in {ROLE_ADMIN.value};
    }
    if i :| 0 <= i < |Names(roles)| && Names(roles)[i] in {ROLE_ADMIN.value} {
      assert roles[i] == ROLE_ADMIN;
    }
  }
}
