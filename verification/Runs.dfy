/**
 Whole runs of Create, Update and Delete over the `users` table
 (internal/domains/user/bus/bus.go, internal/domains/user/store/userdb/userdb.go).
 */
module Runs {
  import opened Wrappers
  import opened Roles
  import opened RoleColumn
  import opened Users
  import opened UserDb
  import opened UserBus
  import opened Order
  import opened Filter
  import opened Sql
  import opened Paging
  import opened Page

  /** A bus call with the inputs it draws from outside: new ids, salts and the clock. */
  datatype Op =
    | Create(nu: NewUser, id: Uuid, now: Time, salt: nat)
    | Update(snapshot: User, updates: UpdateUser, now: Time, salt: nat)
    | Delete(usr: User)

  /** The table, and every id that a Create has drawn so far. */
  datatype World = World(table: Table, drawn: set<Uuid>)

  /** The table after an operation, and the error if it failed. */
  function Exec(hash: Hasher, t: Table, op: Op): (Table, Option<StoreError>) {
    match op
    case Create(nu, id, now, salt) =>
      var (t', r) := Created(hash, t, nu, id, now, salt);
      (t', if r.Err? then Some(r.error) else None)
    case Update(snapshot, updates, now, salt) =>
      var (t', r) := UpdatedBy(hash, t, snapshot, updates, salt, now);
      (t', if r.Err? then Some(r.error) else None)
    case Delete(usr) => (AfterDelete(t, usr), None)
  }

  function Step(hash: Hasher, w: World, op: Op): World {
    World(Exec(hash, w.table, op).0, w.drawn + if op.Create? then {op.id} else {})
  }

  function Run(hash: Hasher, w: World, ops: seq<Op>): World
    decreases |ops|
  {
    if |ops| == 0 then w else Run(hash, Step(hash, w, ops[0]), ops[1..])
  }

  /** Every Create of the run draws an id that was never drawn before. */
  ghost predicate FreshIds(hash: Hasher, w: World, ops: seq<Op>)
    decreases |ops|
  {
    |ops| > 0 ==>
      (ops[0].Create? ==> ops[0].id !in w.drawn) && FreshIds(hash, Step(hash, w, ops[0]), ops[1..])
  }

  /** The roles an operation carries are registered ones, as the role type of the source guarantees. */
  ghost predicate KnownRoles(rt: RoleTable, op: Op) {
    match op
    case Create(nu, _, _, _) => Known(rt, nu.roles)
    case Update(s, u, _, _) => Known(rt, s.roles) && (u.roles.Some? ==> Known(rt, u.roles.value))
    case Delete(_) => true
  }

  ghost predicate Inv(rt: RoleTable, w: World) {
    Faithful(rt) && Consistent(w.table) && AllCanonical(rt, w.table) && w.table.Keys <= w.drawn
  }

  const EMPTY := World(map[], {})

  // ----- one step

  /** A failed operation leaves the table as it was. */
  lemma FailureChangesNothing(hash: Hasher, t: Table, op: Op)
    requires Exec(hash, t, op).1.Some?
    ensures Exec(hash, t, op).0 == t
  {
  }

  /** Which operations succeed. */
  ghost predicate Succeeds(hash: Hasher, t: Table, op: Op) {
    match op
    case Create(nu, id, _, salt) =>
      && hash(nu.password, salt).Some? && TextsStored(nu.name, nu.email.address, nu.department) && id !in t
      && forall k :: k in t ==> Some(t[k].email) != Cut(EMAIL_LIMIT, nu.email.address)
    case Update(s, u, _, salt) =>
      && (u.password.Some? ==> hash(u.password.value, salt).Some?)
      && TextsStored(OrKept(u.name, s.name), OrKept(u.email, s.email).address, OrKept(u.department, s.department))
      && (s.id in t ==>
            forall k :: k in t && k != s.id ==> Some(t[k].email) != Cut(EMAIL_LIMIT, OrKept(u.email, s.email).address))
    case Delete(_) => true
  }

  /** An operation succeeds exactly so, and then changes only the row of its id: to one that was not there, to
      one with the name it carries, or to none. */
  lemma OpDone(rt: RoleTable, hash: Hasher, t: Table, op: Op)
    requires Faithful(rt) && KnownRoles(rt, op)
    ensures var (t', err) := Exec(hash, t, op);
            && (err.None? <==> Succeeds(hash, t, op)) && (err.Some? ==> t' == t)
            && (err.None? && op.Create? ==>
                  op.id in t' && t' == t[op.id := t'[op.id]] && Cut(NAME_LIMIT, op.nu.name) == Some(t'[op.id].name))
            && (err.None? && op.Update? && op.snapshot.id in t ==>
                  && op.snapshot.id in t' && t' == t[op.snapshot.id := t'[op.snapshot.id]]
                  && Cut(NAME_LIMIT, OrKept(op.updates.name, op.snapshot.name)) == Some(t'[op.snapshot.id].name))
            && (op.Update? && op.snapshot.id !in t ==> t' == t)
            && (op.Delete? ==> t' == t - {op.usr.id})
  {
    match op
    case Create(nu, id, now, salt) => UserBus.CreateAnswers(rt, hash, t, nu, id, now, salt);
    case Update(s, u, now, salt) =>
      UserBus.UpdateAnswers(rt, hash, t, s, u, salt, now);
      if UpdatedBy(hash, t, s, u, salt, now).1.Ok? && s.id in t {
        UpdateStores(rt, hash, t, s, u, salt, now);
      }
    case Delete(_) =>
  }

  lemma WrittenCanonical(rt: RoleTable, u: User)
    requires Faithful(rt) && Known(rt, u.roles) && Written(u).Some?
    ensures Canonical(rt, Written(u).value) && Written(u).value.id == u.id
  {
    WrittenKnown(rt, u);
    AsStoredExactly(u);
    assert Micro(Micro(u.createdAt)) == Micro(u.createdAt) && Micro(Micro(u.updatedAt)) == Micro(u.updatedAt);
  }

  /** Setting one row to a row of its own id with an email no other row has keeps consistency. */
  lemma SetRowConsistent(t: Table, row: Row)
    requires Consistent(t) && !EmailTakenByOther(t, row.id, row.email)
    ensures Consistent(t[row.id := row])
  {
  }

  lemma SetRowCanonical(rt: RoleTable, t: Table, row: Row)
    requires AllCanonical(rt, t) && Canonical(rt, row)
    ensures AllCanonical(rt, t[row.id := row])
  {
  }

  /** So does a write of a user with registered roles, under a creation time already stored. */
  lemma WriteKeeps(rt: RoleTable, t: Table, u: User, createdAt: Time)
    requires Faithful(rt) && Consistent(t) && AllCanonical(rt, t) && Known(rt, u.roles) && Written(u).Some?
    requires !EmailTakenByOther(t, u.id, Written(u).value.email) && Micro(createdAt) == createdAt
    ensures var t' := t[u.id := Written(u).value.(createdAt := createdAt)]; Consistent(t') && AllCanonical(rt, t')
  {
    WrittenCanonical(rt, u);
    var row := Written(u).value.(createdAt := createdAt);
    SetRowConsistent(t, row);
    SetRowCanonical(rt, t, row);
  }

  lemma CreateKeeps(rt: RoleTable, hash: Hasher, t: Table, op: Op)
    requires op.Create? && Faithful(rt) && Consistent(t) && AllCanonical(rt, t) && KnownRoles(rt, op)
    ensures var t' := Exec(hash, t, op).0; Consistent(t') && AllCanonical(rt, t')
    ensures Exec(hash, t, op).1.None? ==> op.id !in t && Exec(hash, t, op).0.Keys == t.Keys + {op.id}
    ensures forall id :: id in t ==> id in Exec(hash, t, op).0 && Exec(hash, t, op).0[id] == t[id]
  {
    if Exec(hash, t, op).1.None? {
      var usr := CreateWrites(hash, t, op);
      WriteKeeps(rt, t, usr, usr.createdAt);
    } else {
      FailureChangesNothing(hash, t, op);
    }
  }

  /** A successful Create writes one new user with the roles it was given. */
  lemma CreateWrites(hash: Hasher, t: Table, op: Op) returns (usr: User)
    requires op.Create? && Exec(hash, t, op).1.None?
    ensures usr.id == op.id && op.id !in t && usr.roles == op.nu.roles && Micro(usr.createdAt) == usr.createdAt
    ensures Written(usr).Some? && !EmailTakenByOther(t, usr.id, Written(usr).value.email)
    ensures Written(usr).value.createdAt == usr.createdAt
    ensures Exec(hash, t, op).0 == t[usr.id := Written(usr).value]
  {
    CreatedRow(hash, t, op.nu, op.id, op.now, op.salt);
    usr := Created(hash, t, op.nu, op.id, op.now, op.salt).1.value;
    NewTimes(op.nu, usr.passwordHash, op.id, op.now);
  }

  /** An Update that changes the table writes one user, with its own roles or those it was given. */
  lemma UpdateWrites(hash: Hasher, t: Table, op: Op) returns (usr: User)
    requires op.Update? && Exec(hash, t, op).0 != t
    ensures usr.id in t && usr.roles == OrKept(op.updates.roles, op.snapshot.roles)
    ensures Written(usr).Some? && !EmailTakenByOther(t, usr.id, Written(usr).value.email)
    ensures Exec(hash, t, op).0 == t[usr.id := Written(usr).value.(createdAt := t[usr.id].createdAt)]
  {
    usr := Apply(hash, op.snapshot, op.updates, op.salt, op.now).value;
  }

  lemma UpdateKeeps(rt: RoleTable, hash: Hasher, t: Table, op: Op)
    requires op.Update? && Faithful(rt) && Consistent(t) && AllCanonical(rt, t) && KnownRoles(rt, op)
    ensures var t' := Exec(hash, t, op).0; Consistent(t') && AllCanonical(rt, t') && t'.Keys == t.Keys
    ensures forall id :: id in t ==> Exec(hash, t, op).0[id].createdAt == t[id].createdAt
  {
    if Exec(hash, t, op).0 != t {
      var usr := UpdateWrites(hash, t, op);
      WriteKeeps(rt, t, usr, t[usr.id].createdAt);
    }
  }

  function CreateCount(hash: Hasher, t: Table, op: Op): nat {
    if op.Create? && Exec(hash, t, op).1.None? then 1 else 0
  }

  /** Only a Delete of a present id removes a row; deleting an absent id also reports success. */
  function DeleteCount(t: Table, op: Op): nat {
    if op.Delete? && op.usr.id in t then 1 else 0
  }

  /** How the world may move on: drawn ids stay drawn, rows keep their creation time, a drawn id that is
      gone stays gone, and the row count is conserved. */
  ghost predicate Evolves(w: World, w': World, created: int, deleted: int) {
    && w.drawn <= w'.drawn
    && (forall id :: id in w.table && id in w'.table ==> w'.table[id].createdAt == w.table[id].createdAt)
    && (forall id :: id in w.drawn && id !in w.table ==> id !in w'.table)
    && |w'.table| == |w.table| + created - deleted
  }

  lemma EvolvesOn(w: World, w1: World, w2: World, c1: int, d1: int, c2: int, d2: int)
    requires w.table.Keys <= w.drawn && Evolves(w, w1, c1, d1) && Evolves(w1, w2, c2, d2)
    ensures Evolves(w, w2, c1 + c2, d1 + d2)
  {
    forall id | id in w.table && id in w2.table
      ensures w2.table[id].createdAt == w.table[id].createdAt
    {
      assert id in w1.drawn && id in w1.table;
    }
  }

  lemma SizeOfKeys(t: Table)
    ensures |t.Keys| == |t|
  {
  }

  lemma CreateEvolves(rt: RoleTable, hash: Hasher, w: World, op: Op)
    requires Inv(rt, w) && KnownRoles(rt, op) && op.Create? && op.id !in w.drawn
    ensures Inv(rt, Step(hash, w, op))
    ensures Evolves(w, Step(hash, w, op), CreateCount(hash, w.table, op), 0)
  {
    CreateKeeps(rt, hash, w.table, op);
    if Exec(hash, w.table, op).1.Some? {
      FailureChangesNothing(hash, w.table, op);
    } else {
      OneMore(w.table, Exec(hash, w.table, op).0, op.id);
    }
  }

  lemma OneMore(t: Table, t': Table, id: Uuid)
    requires id !in t && t'.Keys == t.Keys + {id}
    ensures |t'| == |t| + 1
  {
    SizeOfKeys(t);
    SizeOfKeys(t');
  }

  lemma UpdateEvolves(rt: RoleTable, hash: Hasher, w: World, op: Op)
    requires Inv(rt, w) && KnownRoles(rt, op) && op.Update?
    ensures Inv(rt, Step(hash, w, op)) && Evolves(w, Step(hash, w, op), 0, 0)
  {
    UpdateKeeps(rt, hash, w.table, op);
    SizeOfKeys(w.table);
    SizeOfKeys(Exec(hash, w.table, op).0);
  }

  lemma DeleteKeeps(rt: RoleTable, t: Table, id: Uuid)
    requires Consistent(t) && AllCanonical(rt, t)
    ensures Consistent(t - {id}) && AllCanonical(rt, t - {id})
    ensures |t - {id}| == |t| - if id in t then 1 else 0
  {
    SizeOfKeys(t);
    SizeOfKeys(t - {id});
    assert (t - {id}).Keys == t.Keys - {id};
  }

  lemma DeleteEvolves(rt: RoleTable, hash: Hasher, w: World, op: Op)
    requires Inv(rt, w) && op.Delete?
    ensures Inv(rt, Step(hash, w, op)) && Evolves(w, Step(hash, w, op), 0, DeleteCount(w.table, op))
  {
    DeleteKeeps(rt, w.table, op.usr.id);
  }

  lemma StepKeeps(rt: RoleTable, hash: Hasher, w: World, op: Op)
    requires Inv(rt, w) && KnownRoles(rt, op) && (op.Create? ==> op.id !in w.drawn)
    ensures Inv(rt, Step(hash, w, op))
    ensures Evolves(w, Step(hash, w, op), CreateCount(hash, w.table, op), DeleteCount(w.table, op))
  {
    if op.Create? {
      CreateEvolves(rt, hash, w, op);
    } else if op.Update? {
      UpdateEvolves(rt, hash, w, op);
    } else {
      DeleteEvolves(rt, hash, w, op);
    }
  }

  // ----- whole runs

  function CreateTotal(hash: Hasher, w: World, ops: seq<Op>): nat
    decreases |ops|
  {
    if |ops| == 0 then 0
    else CreateCount(hash, w.table, ops[0]) + CreateTotal(hash, Step(hash, w, ops[0]), ops[1..])
  }

  function DeleteTotal(hash: Hasher, w: World, ops: seq<Op>): nat
    decreases |ops|
  {
    if |ops| == 0 then 0
    else DeleteCount(w.table, ops[0]) + DeleteTotal(hash, Step(hash, w, ops[0]), ops[1..])
  }

  /** What every run with fresh ids keeps, from any world such runs reach: ids and emails stay unique,
      rows keep their id and creation time, deleted ids never return, and the row count moves by the
      successful creates minus the rows actually deleted. */
  lemma {:induction false} RunKeeps(rt: RoleTable, hash: Hasher, w: World, ops: seq<Op>)
    requires Inv(rt, w) && FreshIds(hash, w, ops) && forall op :: op in ops ==> KnownRoles(rt, op)
    ensures Inv(rt, Run(hash, w, ops))
    ensures Evolves(w, Run(hash, w, ops), CreateTotal(hash, w, ops), DeleteTotal(hash, w, ops))
    decreases |ops|
  {
    if |ops| > 0 {
      var op, w1 := ops[0], Step(hash, w, ops[0]);
      StepKeeps(rt, hash, w, op);
      RunKeeps(rt, hash, w1, ops[1..]);
      EvolvesOn(w, w1, Run(hash, w, ops), CreateCount(hash, w.table, op), DeleteCount(w.table, op),
                CreateTotal(hash, w1, ops[1..]), DeleteTotal(hash, w1, ops[1..]));
    }
  }

  /** From the empty table on, every reachable table is consistent and canonical, and its size is the
      number of successful creates minus rows deleted. */
  lemma Reachable(rt: RoleTable, hash: Hasher, ops: seq<Op>)
    requires Faithful(rt) && FreshIds(hash, EMPTY, ops) && forall op :: op in ops ==> KnownRoles(rt, op)
    ensures var w := Run(hash, EMPTY, ops);
            && Consistent(w.table) && AllCanonical(rt, w.table)
            && |w.table| == CreateTotal(hash, EMPTY, ops) - DeleteTotal(hash, EMPTY, ops)
            && UniqueEmails(RowsOf(w.table))
  {
    RunKeeps(rt, hash, EMPTY, ops);
    ConsistentEmails(Run(hash, EMPTY, ops).table);
  }

  /** Once a drawn id is gone it stays gone in every later run, and a late Update of it changes nothing while
      reporting success exactly when its password can be hashed and its texts stored. */
  lemma LateUpdateIsLost(rt: RoleTable, hash: Hasher, w: World, ops: seq<Op>, late: Op)
    requires Inv(rt, w) && FreshIds(hash, w, ops) && forall op :: op in ops ==> KnownRoles(rt, op)
    requires late.Update? && KnownRoles(rt, late) && late.snapshot.id in w.drawn && late.snapshot.id !in w.table
    ensures var t := Run(hash, w, ops).table;
            && Exec(hash, t, late).0 == t
            && var usr := Apply(hash, late.snapshot, late.updates, late.salt, late.now);
            && (usr.None? <==>
                late.updates.password.Some? && hash(late.updates.password.value, late.salt).None?)
            && (Exec(hash, t, late).1.None? <==> usr.Some? && AsStored(usr.value).Some?)
  {
    RunKeeps(rt, hash, w, ops);
    MissingUpdate(rt, hash, Run(hash, w, ops).table, late);
  }

  /** An update of an absent id. */
  lemma MissingUpdate(rt: RoleTable, hash: Hasher, t: Table, op: Op)
    requires Faithful(rt) && op.Update? && KnownRoles(rt, op) && op.snapshot.id !in t
    ensures Exec(hash, t, op).0 == t
    ensures var usr := Apply(hash, op.snapshot, op.updates, op.salt, op.now);
            Exec(hash, t, op).1.None? <==> usr.Some? && AsStored(usr.value).Some?
  {
    var usr := Apply(hash, op.snapshot, op.updates, op.salt, op.now);
    if usr.Some? {
      WrittenKnown(rt, usr.value);
    }
  }

  /** On every reachable table, separately fetched pages in email order partition the matching rows. */
  lemma ReachablePagesPartition(
      rt: RoleTable, hash: Hasher, ops: seq<Op>, coll: Collation, db: Engine, ticks: nat -> nat,
      f: QueryFilter, field: Field, rows: nat)
    returns (xs: seq<Row>)
    requires Faithful(rt) && FreshIds(hash, EMPTY, ops) && forall op :: op in ops ==> KnownRoles(rt, op)
    requires Conforms(coll, db) && ParsedOrder(field) && field.name == "email" && 1 <= rows <= MAX_INT / 99
    ensures var table := RowsOf(Run(hash, EMPTY, ops).table);
            && Listing(OrderingOf(coll, field), Meeting(table, f), xs) && |xs| == |Meeting(table, f)|
            && forall k: nat :: k <= MAX_NUMBER ==>
                 FetchUpTo(db, ticks, table, f, field, rows, k) == xs[..Min(k * rows, |xs|)]
  {
    Reachable(rt, hash, ops);
    xs := EmailPagesPartition(coll, db, ticks, RowsOf(Run(hash, EMPTY, ops).table), f, field, rows);
  }
}
