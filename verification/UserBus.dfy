/** The user business layer: internal/domains/user/bus/bus.go. */
module UserBus {
  import opened Wrappers
  import opened Roles
  import opened RoleColumn
  import opened Users
  import opened UserDb
  import DriverArray

  /** `bcrypt.GenerateFromPassword`, with the salt it draws; it may refuse a password. */
  type Hasher = (string, nat) -> Option<string>

  /** `bcrypt.CompareHashAndPassword`. */
  type Verifier = (string, string) -> bool

  ghost predicate HashesVerify(hash: Hasher, verifies: Verifier) {
    forall password, salt :: hash(password, salt).Some? ==> verifies(hash(password, salt).value, password)
  }

  type Reply = Result<User, StoreError>

  // ----- what each operation does to the table

  function NewRecord(nu: NewUser, passwordHash: string, id: Uuid, now: Time): User {
    User(id, nu.name, nu.email, nu.roles, passwordHash, nu.department, true, Micro(now), Micro(now))
  }

  function Created(hash: Hasher, t: Table, nu: NewUser, id: Uuid, now: Time, salt: nat): (Table, Reply) {
    match hash(nu.password, salt)
    case None => (t, Err(ErrOther))
    case Some(h) =>
      var usr := NewRecord(nu, h, id, now);
      var (t', err) := AfterCreate(t, usr);
      (t', if err.Some? then Err(err.value) else Ok(usr))
  }

  /** The user with the set fields of an update overwritten; none if the new password cannot be hashed. */
  function Apply(hash: Hasher, usr: User, u: UpdateUser, salt: nat, now: Time): Option<User> {
    var h := if u.password.Some? then hash(u.password.value, salt) else Some(usr.passwordHash);
    if h.None? then None
    else
      Some(usr.(
        name := if u.name.Some? then u.name.value else usr.name,
        email := if u.email.Some? then u.email.value else usr.email,
        department := if u.department.Some? then u.department.value else usr.department,
        roles := if u.roles.Some? then u.roles.value else usr.roles,
        passwordHash := h.value,
        enabled := if u.enabled.Some? then u.enabled.value else usr.enabled,
        updatedAt := now))
  }

  function UpdatedBy(hash: Hasher, t: Table, usr: User, u: UpdateUser, salt: nat, now: Time): (Table, Reply) {
    match Apply(hash, usr, u, salt, now)
    case None => (t, Err(ErrOther))
    case Some(usr') =>
      var (t', err) := AfterUpdate(t, usr');
      (t', if err.Some? then Err(err.value) else Ok(usr'))
  }

  // ----- the code

  /** `Bus`. The fresh id, the clock and the salt are inputs. */
  class Bus {
    const store: Store
    const hash: Hasher

    constructor (store: Store, hash: Hasher)
      ensures this.store == store && this.hash == hash
    {
      this.store, this.hash := store, hash;
    }

    method Create(nu: NewUser, id: Uuid, clock: Time, salt: nat) returns (r: Reply)
      modifies store`users
      ensures (store.users, r) == Created(hash, old(store.users), nu, id, clock, salt)
    {
      var bs := hash(nu.password, salt);
      if bs.None? {
        return Err(ErrOther);
      }
      var now := Micro(clock);
      var usr := User(id, nu.name, nu.email, nu.roles, bs.value, nu.department, true, now, now);
      var err := store.Create(usr);
      if err.Some? {
        return Err(err.value);
      }
      r := Ok(usr);
    }

    method Update(snapshot: User, updates: UpdateUser, clock: Time, salt: nat) returns (r: Reply)
      modifies store`users
      ensures (store.users, r) == UpdatedBy(hash, old(store.users), snapshot, updates, salt, clock)
    {
      var usr := snapshot;
      if updates.name.Some? {
        usr := usr.(name := updates.name.value);
      }
      if updates.email.Some? {
        usr := usr.(email := updates.email.value);
      }
      if updates.department.Some? {
        usr := usr.(department := updates.department.value);
      }
      assert usr == snapshot.(name := usr.name, email := usr.email, department := usr.department);
      if updates.roles.Some? {
        usr := usr.(roles := updates.roles.value);
      }
      if updates.password.Some? {
        var bs := hash(updates.password.value, salt);
        if bs.None? {
          return Err(ErrOther);
        }
        usr := usr.(passwordHash := bs.value);
      }
      if updates.enabled.Some? {
        usr := usr.(enabled := updates.enabled.value);
      }
      usr := usr.(updatedAt := clock);
      assert Apply(hash, snapshot, updates, salt, clock) == Some(usr);
      var err := store.Update(usr);
      if err.Some? {
        return Err(err.value);
      }
      r := Ok(usr);
    }

    method Delete(usr: User)
      modifies store`users
      ensures store.users == AfterDelete(old(store.users), usr)
    {
      store.Delete(usr);
    }

    method QueryByID(id: Uuid) returns (r: Reply)
      ensures r == Found(store.roleTable, store.users, id)
      ensures id !in store.users ==> r == Err(ErrUserNotFound)
      ensures id in store.users ==>
                if ReadBack(store.roleTable, store.users[id]).Some?
                then r == Ok(ReadBack(store.roleTable, store.users[id]).value) else r == Err(ErrOther)
    {
      r := store.QueryByID(id);
    }
  }

  // ----- what a caller reads back

  ghost predicate TextsStored(name: string, address: string, department: string) {
    Cut(NAME_LIMIT, name).Some? && Cut(EMAIL_LIMIT, address).Some? && Cut(DEPARTMENT_LIMIT, department).Some?
  }

  /** What a create answers: the duplicate error exactly if all else is fine but the id or the stored email is
      taken, another error exactly if the password cannot be hashed or a text not stored. Then nothing
      changes; otherwise the one new row holds the given values. */
  lemma CreateAnswers(rt: RoleTable, hash: Hasher, t: Table, nu: NewUser, id: Uuid, now: Time, salt: nat)
    requires Faithful(rt) && Known(rt, nu.roles)
    ensures var (t', r) := Created(hash, t, nu, id, now, salt);
            var fine := hash(nu.password, salt).Some? && TextsStored(nu.name, nu.email.address, nu.department);
            && (r == Err(ErrDuplicatedEmail) <==>
                fine && (id in t || exists k :: k in t && Some(t[k].email) == Cut(EMAIL_LIMIT, nu.email.address)))
            && (r == Err(ErrOther) <==> !fine) && r != Err(ErrUserNotFound)
            && (r.Err? ==> t' == t)
            && (r.Ok? ==>
                  t' == t[id := Row(id, Cut(NAME_LIMIT, nu.name).value, Cut(EMAIL_LIMIT, nu.email.address).value,
                                    DriverArray.ElementsOf(Roles.Names(nu.roles)), hash(nu.password, salt).value,
                                    if nu.department == "" then None else Cut(DEPARTMENT_LIMIT, nu.department),
                                    true, Micro(now), Micro(now))])
  {
    if hash(nu.password, salt).Some? {
      var usr := NewRecord(nu, hash(nu.password, salt).value, id, now);
      WrittenKnown(rt, usr);
      UserDb.CreateAnswers(t, usr);
      assert Micro(Micro(now)) == Micro(now);
    }
  }

  /** What an update answers, with any snapshot: the duplicate error exactly if all else is fine but another row
      has the stored email, another error exactly if the password cannot be hashed or a text not stored. A
      missing id is no error. */
  lemma UpdateAnswers(rt: RoleTable, hash: Hasher, t: Table, usr: User, u: UpdateUser, salt: nat, now: Time)
    requires Faithful(rt) && Known(rt, OrKept(u.roles, usr.roles))
    ensures var (t', r) := UpdatedBy(hash, t, usr, u, salt, now);
            var address := OrKept(u.email, usr.email).address;
            var fine := && (u.password.Some? ==> hash(u.password.value, salt).Some?)
                        && TextsStored(OrKept(u.name, usr.name), address, OrKept(u.department, usr.department));
            && (r == Err(ErrDuplicatedEmail) <==>
                fine && usr.id in t && exists k :: k in t && k != usr.id && Some(t[k].email) == Cut(EMAIL_LIMIT, address))
            && (r == Err(ErrOther) <==> !fine) && r != Err(ErrUserNotFound)
            && (r.Err? || usr.id !in t ==> t' == t)
  {
    var usr' := Apply(hash, usr, u, salt, now);
    if usr'.Some? {
      WrittenKnown(rt, usr'.value);
      UserDb.UpdateAnswers(t, usr'.value);
    }
  }

  /** What a successful update stores, with any snapshot: every column but id and creation time, from the update
      where it names one and from the snapshot otherwise. */
  lemma UpdateStores(rt: RoleTable, hash: Hasher, t: Table, usr: User, u: UpdateUser, salt: nat, now: Time)
    requires Faithful(rt) && Known(rt, OrKept(u.roles, usr.roles)) && usr.id in t
    requires UpdatedBy(hash, t, usr, u, salt, now).1.Ok?
    ensures TextsStored(OrKept(u.name, usr.name), OrKept(u.email, usr.email).address, OrKept(u.department, usr.department))
    ensures u.password.Some? ==> hash(u.password.value, salt).Some?
    ensures var department := OrKept(u.department, usr.department);
            UpdatedBy(hash, t, usr, u, salt, now).0 ==
            t[usr.id := Row(usr.id, Cut(NAME_LIMIT, OrKept(u.name, usr.name)).value,
                            Cut(EMAIL_LIMIT, OrKept(u.email, usr.email).address).value,
                            DriverArray.ElementsOf(Roles.Names(OrKept(u.roles, usr.roles))),
                            if u.password.Some? then hash(u.password.value, salt).value else usr.passwordHash,
                            if department == "" then None else Cut(DEPARTMENT_LIMIT, department),
                            OrKept(u.enabled, usr.enabled), t[usr.id].createdAt, Micro(now))]
  {
    UpdateAnswers(rt, hash, t, usr, u, salt, now);
    UpdateSucceeds(hash, t, usr, u, salt, now);
    WrittenKnown(rt, UpdatedBy(hash, t, usr, u, salt, now).1.value);
  }

  /** The user an update returns: the snapshot with the fields that the update names, mail name included, a hash
      of a new password, and the clock as it is. */
  lemma UpdateReturns(hash: Hasher, t: Table, usr: User, u: UpdateUser, salt: nat, now: Time)
    requires UpdatedBy(hash, t, usr, u, salt, now).1.Ok?
    ensures var v := UpdatedBy(hash, t, usr, u, salt, now).1.value;
            && v.id == usr.id && v.createdAt == usr.createdAt && v.updatedAt == now
            && (if u.name.Some? then v.name == u.name.value else v.name == usr.name)
            && (if u.email.Some? then v.email == u.email.value else v.email == usr.email)
            && (if u.roles.Some? then v.roles == u.roles.value else v.roles == usr.roles)
            && (if u.department.Some? then v.department == u.department.value else v.department == usr.department)
            && (if u.enabled.Some? then v.enabled == u.enabled.value else v.enabled == usr.enabled)
            && (if u.password.Some? then hash(u.password.value, salt) == Some(v.passwordHash)
                else v.passwordHash == usr.passwordHash)
  {
  }

  /** A user is created exactly when the password can be hashed, its texts stored, its id is new and nobody
      has its email. */
  lemma CreatedExactly(rt: RoleTable, hash: Hasher, t: Table, nu: NewUser, id: Uuid, now: Time, salt: nat)
    requires Faithful(rt) && Known(rt, nu.roles)
    ensures Created(hash, t, nu, id, now, salt).1.Ok? <==>
            && hash(nu.password, salt).Some? && id !in t
            && Cut(NAME_LIMIT, nu.name).Some? && Cut(DEPARTMENT_LIMIT, nu.department).Some?
            && Cut(EMAIL_LIMIT, nu.email.address).Some?
            && forall k :: k in t ==> t[k].email != Cut(EMAIL_LIMIT, nu.email.address).value
  {
    if hash(nu.password, salt).Some? {
      WrittenKnown(rt, NewRecord(nu, hash(nu.password, salt).value, id, now));
    }
  }

  /** A created user reads back enabled, with the given fields, a hash of the given password and one
      truncated time that survives storage exactly; the mail name is replaced by the user name, and texts
      are as their columns store them. */
  lemma CreateThenRead(rt: RoleTable, hash: Hasher, t: Table, nu: NewUser, id: Uuid, now: Time, salt: nat)
    requires Faithful(rt) && Known(rt, nu.roles)
    requires Created(hash, t, nu, id, now, salt).1.Ok?
    ensures var (t', r) := Created(hash, t, nu, id, now, salt);
            && id !in t && hash(nu.password, salt) == Some(r.value.passwordHash)
            && Cut(NAME_LIMIT, nu.name).Some? && Cut(EMAIL_LIMIT, nu.email.address).Some? && Cut(DEPARTMENT_LIMIT, nu.department).Some?
            && var name := Cut(NAME_LIMIT, nu.name).value;
            && Found(rt, t', id) ==
               Ok(r.value.(name := name, email := MailAddress(name, Cut(EMAIL_LIMIT, nu.email.address).value),
                           department := Cut(DEPARTMENT_LIMIT, nu.department).value))
            && r.value == User(id, nu.name, nu.email, nu.roles, r.value.passwordHash, nu.department, true,
                               Micro(now), Micro(now))
  {
    CreatedRow(hash, t, nu, id, now, salt);
    WrittenReads(rt, Created(hash, t, nu, id, now, salt).1.value);
    assert Micro(Micro(now)) == Micro(now);
  }

  lemma NewTimes(nu: NewUser, h: string, id: Uuid, now: Time)
    ensures var usr := NewRecord(nu, h, id, now);
            Micro(usr.createdAt) == usr.createdAt && (Written(usr).Some? ==> Written(usr).value.createdAt == usr.createdAt)
  {
    assert Micro(Micro(now)) == Micro(now);
  }

  lemma CreatedRow(hash: Hasher, t: Table, nu: NewUser, id: Uuid, now: Time, salt: nat)
    requires Created(hash, t, nu, id, now, salt).1.Ok?
    ensures var (t', r) := Created(hash, t, nu, id, now, salt);
            && id !in t && hash(nu.password, salt) == Some(r.value.passwordHash)
            && r.value == NewRecord(nu, r.value.passwordHash, id, now)
            && Written(r.value).Some? && t' == t[id := Written(r.value).value]
            && !EmailTakenByOther(t, id, Written(r.value).value.email)
  {
  }

  /** An updated user reads back in normal form, with the stored creation time and its untruncated update
      time at microsecond precision, exactly if its roles are registered and its texts within their limits;
      with registered roles it reads back as stored. */
  lemma UpdateThenRead(rt: RoleTable, hash: Hasher, t: Table, usr: User, u: UpdateUser, salt: nat, now: Time)
    requires Faithful(rt) && usr.id in t
    requires UpdatedBy(hash, t, usr, u, salt, now).1.Ok?
    ensures var (t', r) := UpdatedBy(hash, t, usr, u, salt, now);
            && (Found(rt, t', usr.id) == Ok(Normal(r.value).(createdAt := t[usr.id].createdAt)) <==>
                Known(rt, r.value.roles) && WithinLimits(r.value))
            && (Known(rt, r.value.roles) ==>
                  AsStored(r.value).Some? &&
                  Found(rt, t', usr.id) == Ok(Normal(AsStored(r.value).value).(createdAt := t[usr.id].createdAt)))
  {
    var (t', r) := UpdatedBy(hash, t, usr, u, salt, now);
    UpdateSucceeds(hash, t, usr, u, salt, now);
    ReadUpdated(rt, r.value, t[usr.id].createdAt);
  }

  lemma ReadUpdated(rt: RoleTable, usr: User, createdAt: Time)
    requires Faithful(rt) && Written(usr).Some?
    ensures var v := ReadBack(rt, Written(usr).value.(createdAt := createdAt));
            && (v == Some(Normal(usr).(createdAt := createdAt)) <==> Known(rt, usr.roles) && WithinLimits(usr))
            && (Known(rt, usr.roles) ==>
                  AsStored(usr).Some? && v == Some(Normal(AsStored(usr).value).(createdAt := createdAt)))
  {
    WriteThenRead(rt, usr);
    if Known(rt, usr.roles) {
      WrittenReads(rt, usr);
    }
    ReadAnyTime(rt, Written(usr).value, createdAt);
  }

  lemma ReadAnyTime(rt: RoleTable, row: Row, createdAt: Time)
    ensures ReadBack(rt, row.(createdAt := createdAt)) ==
            if ReadBack(rt, row).None? then None else Some(ReadBack(rt, row).value.(createdAt := createdAt))
  {
  }

  // ----- partial updates compose

  function Or<T>(newer: Option<T>, older: Option<T>): Option<T> {
    if newer.Some? then newer else older
  }

  /** The single update that means "first u1, then u2". */
  function Merge(u1: UpdateUser, u2: UpdateUser): UpdateUser {
    UpdateUser(Or(u2.name, u1.name), Or(u2.email, u1.email), Or(u2.roles, u1.roles),
               Or(u2.department, u1.department), Or(u2.password, u1.password), Or(u2.enabled, u1.enabled))
  }

  /** Two rows that differ at most in update time and password hash. */
  ghost predicate SameButHash(a: Row, b: Row) {
    a == b.(updatedAt := a.updatedAt, passwordHash := a.passwordHash)
  }

  /** An update made on the current snapshot: the row it names is the one the user was read from. */
  ghost predicate Current(rt: RoleTable, t: Table, usr: User) {
    usr.id in t && ReadBack(rt, t[usr.id]) == Some(usr)
  }

  lemma CurrentRow(rt: RoleTable, t: Table, usr: User)
    requires Faithful(rt) && AllCanonical(rt, t) && Current(rt, t, usr)
    ensures Written(usr) == Some(t[usr.id]) && RowOf(usr) == t[usr.id] && Known(rt, usr.roles) && WithinLimits(usr)
  {
    ReadThenWrite(rt, t[usr.id]);
  }

  lemma UpdateSucceeds(hash: Hasher, t: Table, usr: User, u: UpdateUser, salt: nat, now: Time)
    requires usr.id in t && UpdatedBy(hash, t, usr, u, salt, now).1.Ok?
    ensures var (t', r) := UpdatedBy(hash, t, usr, u, salt, now);
            Apply(hash, usr, u, salt, now) == Some(r.value) && r.value.id == usr.id && Written(r.value).Some? &&
            var row := Written(r.value).value.(createdAt := t[usr.id].createdAt);
            t' == t[usr.id := row] && !EmailTakenByOther(t, usr.id, row.email)
  {
  }

  /** When u1 and then u2 succeed, each on the snapshot current at its time, the one merged update also
      succeeds and stores the same row, up to update time and salt: both hashes verify the last password. */
  lemma UpdatesCompose(
      rt: RoleTable, hash: Hasher, verifies: Verifier, t: Table, s1: User, u1: UpdateUser, u2: UpdateUser,
      salt1: nat, now1: Time, s2: User, salt2: nat, now2: Time, salt3: nat, now3: Time)
    requires Faithful(rt) && Consistent(t) && AllCanonical(rt, t) && HashesVerify(hash, verifies)
    requires u1.roles.Some? ==> Known(rt, u1.roles.value)
    requires Current(rt, t, s1) && UpdatedBy(hash, t, s1, u1, salt1, now1).1.Ok?
    requires var t1 := UpdatedBy(hash, t, s1, u1, salt1, now1).0;
             s2.id == s1.id && Current(rt, t1, s2) && UpdatedBy(hash, t1, s2, u2, salt2, now2).1.Ok?
    requires var m := Merge(u1, u2); m.password.Some? ==> hash(m.password.value, salt3).Some?
    ensures var t2 := UpdatedBy(hash, UpdatedBy(hash, t, s1, u1, salt1, now1).0, s2, u2, salt2, now2).0;
            var m := Merge(u1, u2);
            var (t3, r3) := UpdatedBy(hash, t, s1, m, salt3, now3);
            && r3.Ok? && t3.Keys == t2.Keys == t.Keys
            && (forall id :: id in t && id != s1.id ==> t3[id] == t2[id] == t[id])
            && SameButHash(t3[s1.id], t2[s1.id])
            && (if m.password.Some?
                then verifies(t3[s1.id].passwordHash, m.password.value) && verifies(t2[s1.id].passwordHash, m.password.value)
                else t3[s1.id].passwordHash == t2[s1.id].passwordHash == t[s1.id].passwordHash)
  {
    CurrentRow(rt, t, s1);
    SecondSnapshot(rt, hash, t, s1, u1, salt1, now1, s2);
    MergedUpdate(hash, verifies, t, s1, u1, u2, salt1, now1, s2, salt2, now2, salt3, now3);
  }

  /** The user read after a successful update of known roles, as stored. */
  lemma SecondSnapshot(rt: RoleTable, hash: Hasher, t: Table, s1: User, u1: UpdateUser, salt1: nat, now1: Time, s2: User)
    requires Faithful(rt) && s1.id in t && Known(rt, s1.roles) && (u1.roles.Some? ==> Known(rt, u1.roles.value))
    requires var (t1, r1) := UpdatedBy(hash, t, s1, u1, salt1, now1); r1.Ok? && s2.id == s1.id && Current(rt, t1, s2)
    ensures var usr1 := UpdatedBy(hash, t, s1, u1, salt1, now1).1.value;
            AsStored(usr1).Some? && s2 == Normal(AsStored(usr1).value).(createdAt := t[s1.id].createdAt)
  {
    var (t1, r1) := UpdatedBy(hash, t, s1, u1, salt1, now1);
    UpdateSucceeds(hash, t, s1, u1, salt1, now1);
    ReadUpdated(rt, r1.value, t[s1.id].createdAt);
  }

  lemma MergedUpdate(
      hash: Hasher, verifies: Verifier, t: Table, s1: User, u1: UpdateUser, u2: UpdateUser,
      salt1: nat, now1: Time, s2: User, salt2: nat, now2: Time, salt3: nat, now3: Time)
    requires HashesVerify(hash, verifies) && s1.id in t && t[s1.id].passwordHash == s1.passwordHash
    requires var (t1, r1) := UpdatedBy(hash, t, s1, u1, salt1, now1);
             && r1.Ok? && AsStored(r1.value).Some?
             && s2 == Normal(AsStored(r1.value).value).(createdAt := t[s1.id].createdAt)
             && s2.id in t1 && UpdatedBy(hash, t1, s2, u2, salt2, now2).1.Ok?
    requires var m := Merge(u1, u2); m.password.Some? ==> hash(m.password.value, salt3).Some?
    ensures var t2 := UpdatedBy(hash, UpdatedBy(hash, t, s1, u1, salt1, now1).0, s2, u2, salt2, now2).0;
            var m := Merge(u1, u2);
            var (t3, r3) := UpdatedBy(hash, t, s1, m, salt3, now3);
            && r3.Ok? && t3.Keys == t2.Keys == t.Keys
            && (forall id :: id in t && id != s1.id ==> t3[id] == t2[id] == t[id])
            && SameButHash(t3[s1.id], t2[s1.id])
            && (if m.password.Some?
                then verifies(t3[s1.id].passwordHash, m.password.value) && verifies(t2[s1.id].passwordHash, m.password.value)
                else t3[s1.id].passwordHash == t2[s1.id].passwordHash == t[s1.id].passwordHash)
  {
    var id, m := s1.id, Merge(u1, u2);
    var (t1, r1) := UpdatedBy(hash, t, s1, u1, salt1, now1);
    var (t2, r2) := UpdatedBy(hash, t1, s2, u2, salt2, now2);
    UpdateSucceeds(hash, t, s1, u1, salt1, now1);
    UpdateSucceeds(hash, t1, s2, u2, salt2, now2);
    AppliesCompose(hash, verifies, s1, u1, u2, salt1, now1, r1.value, t[id].createdAt, s2, salt2, now2, r2.value, salt3, now3);
    var usr3 := Apply(hash, s1, m, salt3, now3).value;
    SameOthers(t, t1, id, t1[id], Written(usr3).value.email);
    AppliedUpdateSucceeds(hash, t, s1, m, salt3, now3, usr3);
  }

  /** An applied update whose row can be written and whose email is free among the others is stored. */
  lemma AppliedUpdateSucceeds(hash: Hasher, t: Table, usr: User, u: UpdateUser, salt: nat, now: Time, usr': User)
    requires usr.id in t && Apply(hash, usr, u, salt, now) == Some(usr') && Written(usr').Some?
    requires !EmailTakenByOther(t, usr.id, Written(usr').value.email)
    ensures UpdatedBy(hash, t, usr, u, salt, now) ==
            (t[usr.id := Written(usr').value.(createdAt := t[usr.id].createdAt)], Ok(usr'))
  {
  }

  /** Changing one row does not change whether another row holds an email. */
  lemma SameOthers(t: Table, t1: Table, id: Uuid, row: Row, email: string)
    requires t1 == t[id := row]
    ensures EmailTakenByOther(t1, id, email) <==> EmailTakenByOther(t, id, email)
  {
    if k :| k in t && k != id && t[k].email == email {
      assert k in t1 && t1[k].email == email;
    }
  }

  lemma AppliesCompose(
      hash: Hasher, verifies: Verifier, s1: User, u1: UpdateUser, u2: UpdateUser, salt1: nat, now1: Time, usr1: User,
      createdAt: Time, s2: User, salt2: nat, now2: Time, usr2: User, salt3: nat, now3: Time)
    requires HashesVerify(hash, verifies)
    requires Apply(hash, s1, u1, salt1, now1) == Some(usr1) && AsStored(usr1).Some?
    requires s2 == Normal(AsStored(usr1).value).(createdAt := createdAt)
    requires Apply(hash, s2, u2, salt2, now2) == Some(usr2) && Written(usr2).Some?
    requires var m := Merge(u1, u2); m.password.Some? ==> hash(m.password.value, salt3).Some?
    ensures var m, r3 := Merge(u1, u2), Apply(hash, s1, Merge(u1, u2), salt3, now3);
            && r3.Some? && r3.value.id == s1.id && Written(r3.value).Some?
            && SameButHash(Written(r3.value).value.(createdAt := createdAt), Written(usr2).value.(createdAt := createdAt))
            && (if m.password.Some?
                then verifies(r3.value.passwordHash, m.password.value) && verifies(usr2.passwordHash, m.password.value)
                else r3.value.passwordHash == usr2.passwordHash == s1.passwordHash)
  {
    MergedUser(hash, verifies, s1, u1, u2, salt1, now1, usr1, createdAt, s2, salt2, now2, usr2, salt3, now3);
    SameColumns(Apply(hash, s1, Merge(u1, u2), salt3, now3).value, usr2, createdAt);
  }

  /** Two users whose texts are stored alike, with the same roles and flag. */
  ghost predicate StoredAlike(a: User, b: User) {
    && a.id == b.id && a.roles == b.roles && a.enabled == b.enabled
    && Cut(NAME_LIMIT, a.name) == Cut(NAME_LIMIT, b.name)
    && Cut(EMAIL_LIMIT, a.email.address) == Cut(EMAIL_LIMIT, b.email.address)
    && Cut(DEPARTMENT_LIMIT, a.department) == Cut(DEPARTMENT_LIMIT, b.department)
  }

  lemma SameColumns(a: User, b: User, createdAt: Time)
    requires StoredAlike(a, b) && Written(b).Some?
    ensures Written(a).Some?
    ensures SameButHash(Written(a).value.(createdAt := createdAt), Written(b).value.(createdAt := createdAt))
  {
  }

  /** Storing the user in between cuts its texts, which storing the merged update does once. */
  lemma MergedUser(
      hash: Hasher, verifies: Verifier, s1: User, u1: UpdateUser, u2: UpdateUser, salt1: nat, now1: Time, usr1: User,
      createdAt: Time, s2: User, salt2: nat, now2: Time, usr2: User, salt3: nat, now3: Time)
    requires HashesVerify(hash, verifies)
    requires Apply(hash, s1, u1, salt1, now1) == Some(usr1) && AsStored(usr1).Some?
    requires s2 == Normal(AsStored(usr1).value).(createdAt := createdAt)
    requires Apply(hash, s2, u2, salt2, now2) == Some(usr2)
    requires var m := Merge(u1, u2); m.password.Some? ==> hash(m.password.value, salt3).Some?
    ensures var m, r3 := Merge(u1, u2), Apply(hash, s1, Merge(u1, u2), salt3, now3);
            && r3.Some? && StoredAlike(r3.value, usr2)
            && (if m.password.Some?
                then verifies(r3.value.passwordHash, m.password.value) && verifies(usr2.passwordHash, m.password.value)
                else r3.value.passwordHash == usr2.passwordHash == s1.passwordHash)
  {
  }

  function OrKept<T>(update: Option<T>, stored: T): T {
    if update.Some? then update.value else stored
  }

  /** A text column after an update: what the column stores of a new text, or unchanged. */
  predicate CutOrKept(limit: nat, update: Option<string>, before: string, after: string) {
    if update.None? then after == before else Cut(limit, update.value) == Some(after)
  }

  /** An update on the current snapshot sets the fields it names, as their columns store them, and keeps every
      other as stored. */
  lemma UpdateSetsFields(rt: RoleTable, hash: Hasher, t: Table, usr: User, u: UpdateUser, salt: nat, now: Time)
    requires Faithful(rt) && Consistent(t) && AllCanonical(rt, t) && Current(rt, t, usr)
    requires UpdatedBy(hash, t, usr, u, salt, now).1.Ok?
    ensures var row, row' := t[usr.id], UpdatedBy(hash, t, usr, u, salt, now).0[usr.id];
            && row'.id == row.id && row'.createdAt == row.createdAt && row'.updatedAt == Micro(now)
            && CutOrKept(NAME_LIMIT, u.name, row.name, row'.name)
            && CutOrKept(EMAIL_LIMIT, if u.email.Some? then Some(u.email.value.address) else None, row.email, row'.email)
            && (if u.roles.Some? then Write(u.roles.value) == Some(row'.roles) else row'.roles == row.roles)
            && (if u.department.None? then row'.department == row.department
                else if u.department.value == "" then row'.department == None
                else row'.department.Some? && Cut(DEPARTMENT_LIMIT, u.department.value) == row'.department)
            && (if u.password.Some? then hash(u.password.value, salt) == Some(row'.passwordHash)
                else row'.passwordHash == row.passwordHash)
            && row'.enabled == OrKept(u.enabled, row.enabled)
  {
    CurrentRow(rt, t, usr);
    UpdateSucceeds(hash, t, usr, u, salt, now);
  }
}
