/**
 The requests that change users, from the bound body onward:
 internal/domains/user/handler/handler.go and internal/domains/user/handler/models.go.
 */
module Handlers {
  import opened Wrappers
  import opened Roles
  import opened RoleColumn
  import opened Auth
  import opened Users
  import opened UserDb
  import opened UserBus
  import DriverArray
  import Runs

  /** What `c.Get("user")` holds: nothing, something else, or the acting user. */
  datatype Actor = NoUser | NotAUser | Acting(user: User)

  datatype Status = BadRequest | Unauthorized | NotFound | Internal

  /** How a request ends. A panic is caught further out; it is neither a reply nor an error value. */
  datatype Outcome = Done(user: Option<User>) | Failed(status: Status) | Panicked

  /** The body of an update request. */
  datatype UpdateBody = UpdateBody(
    name: Option<string>, email: Option<string>, department: Option<string>,
    password: Option<string>, enabled: Option<bool>)

  /** `mail.ParseAddress`. */
  type AddressParser = string -> Option<MailAddress>

  /** The id is what `uuid.Parse` made of the path, the body what binding made of the payload. */
  datatype Request =
    | DeleteRequest(id: Option<Uuid>, actor: Actor)
    | UpdateRequest(id: Option<Uuid>, actor: Actor, body: Option<UpdateBody>, now: Time, salt: nat)
    | RoleRequest(id: Option<Uuid>, actor: Actor, roles: Option<seq<string>>, now: Time, salt: nat)
    | DisableRequest(id: Option<Uuid>, actor: Actor, now: Time, salt: nat)

  datatype Env = Env(rt: RoleTable, hash: Hasher, parseAddress: AddressParser)

  // ----- conversions

  datatype Converted = Converts(update: UpdateUser) | Rejects | Panics

  /** `toBusUpdateUser` dereferences the email before looking at anything else. */
  function ToBusUpdateUser(parseAddress: AddressParser, body: UpdateBody): Converted {
    if body.email.None? then Panics
    else
      match parseAddress(body.email.value)
      case None => Rejects
      case Some(email) =>
        Converts(UpdateUser(body.name, Some(email), None, body.department, body.password, body.enabled))
  }

  function ToBusUpdateRoles(rt: RoleTable, names: seq<string>): Option<UpdateUser> {
    match ParseMany(rt, names)
    case None => None
    case Some(roles) => Some(UpdateUser(None, None, Some(roles), None, None, None))
  }

  // ----- what each request does

  function Replied(r: Reply, onDuplicate: Status): Outcome {
    match r
    case Ok(u) => Done(Some(u))
    case Err(ErrDuplicatedEmail) => Failed(onDuplicate)
    case Err(_) => Failed(Internal)
  }

  function FindFailure(r: Reply): Status
    requires r.Err?
  {
    if r.error == ErrUserNotFound then NotFound else Internal
  }

  function Handle(env: Env, t: Table, req: Request): (Table, Outcome) {
    match req
    case DeleteRequest(id, actor) => HandleDelete(env, t, id, actor)
    case UpdateRequest(id, actor, body, now, salt) => HandleUpdate(env, t, id, actor, body, now, salt)
    case RoleRequest(id, actor, roles, now, salt) => HandleRole(env, t, id, actor, roles, now, salt)
    case DisableRequest(id, actor, now, salt) => HandleDisable(env, t, id, actor)
  }

  function HandleDelete(env: Env, t: Table, id: Option<Uuid>, actor: Actor): (Table, Outcome) {
    if id.None? then (t, Failed(BadRequest))
    else if !actor.Acting? then (t, Failed(Unauthorized))
    else if id.value != actor.user.id && !IsAdmin(actor.user.roles) then (t, Failed(Unauthorized))
    else
      var target := Found(env.rt, t, id.value);
      if target.Err? then (t, Failed(FindFailure(target))) else (AfterDelete(t, target.value), Done(None))
  }

  /** The acting user itself is the snapshot that is updated. */
  function HandleUpdate(env: Env, t: Table, id: Option<Uuid>, actor: Actor, body: Option<UpdateBody>, now: Time, salt: nat)
    : (Table, Outcome)
  {
    if id.None? then (t, Failed(BadRequest))
    else if !actor.Acting? then (t, Failed(Unauthorized))
    else if actor.user.id != id.value then (t, Failed(Unauthorized))
    else if body.None? then (t, Failed(BadRequest))
    else
      match ToBusUpdateUser(env.parseAddress, body.value)
      case Panics => (t, Panicked)
      case Rejects => (t, Failed(BadRequest))
      case Converts(u) =>
        var (t', r) := UpdatedBy(env.hash, t, actor.user, u, salt, now);
        (t', Replied(r, BadRequest))
  }

  function HandleRole(env: Env, t: Table, id: Option<Uuid>, actor: Actor, roles: Option<seq<string>>, now: Time, salt: nat)
    : (Table, Outcome)
  {
    if !actor.Acting? then (t, Failed(Unauthorized))
    else if !IsAdmin(actor.user.roles) then (t, Failed(Unauthorized))
    else if id.None? || roles.None? then (t, Failed(BadRequest))
    else
      match ToBusUpdateRoles(env.rt, roles.value)
      case None => (t, Failed(BadRequest))
      case Some(u) =>
        var target := Found(env.rt, t, id.value);
        if target.Err? then (t, Failed(FindFailure(target)))
        else if !target.value.enabled then (t, Failed(BadRequest))
        else
          var (t', r) := UpdatedBy(env.hash, t, target.value, u, salt, now);
          (t', Replied(r, Internal))
  }

  /** The update it builds has no email, so the conversion panics once the target is found. */
  function HandleDisable(env: Env, t: Table, id: Option<Uuid>, actor: Actor): (Table, Outcome) {
    if id.None? then (t, Failed(BadRequest))
    else if !actor.Acting? then (t, Failed(Unauthorized))
    else if id.value != actor.user.id && !IsAdmin(actor.user.roles) then (t, Failed(Unauthorized))
    else
      var target := Found(env.rt, t, id.value);
      if target.Err? then (t, Failed(FindFailure(target))) else (t, Panicked)
  }

  // ----- the code

  class Handler {
    const userBus: Bus
    const parseAddress: AddressParser

    constructor (userBus: Bus, parseAddress: AddressParser)
      ensures this.userBus == userBus && this.parseAddress == parseAddress
    {
      this.userBus, this.parseAddress := userBus, parseAddress;
    }

    function TheEnv(): Env {
      Env(userBus.store.roleTable, userBus.hash, parseAddress)
    }

    method DeleteUser(id: Option<Uuid>, actor: Actor) returns (o: Outcome)
      modifies userBus.store`users
      ensures (userBus.store.users, o) == HandleDelete(TheEnv(), old(userBus.store.users), id, actor)
    {
      if id.None? {
        return Failed(BadRequest);
      }
      if !actor.Acting? {
        return Failed(Unauthorized);
      }
      if id.value != actor.user.id && !IsAdmin(actor.user.roles) {
        return Failed(Unauthorized);
      }
      var target := userBus.QueryByID(id.value);
      if target.Err? {
        return Failed(if target.error == ErrUserNotFound then NotFound else Internal);
      }
      userBus.Delete(target.value);
      o := Done(None);
    }

    method UpdateUser(id: Option<Uuid>, actor: Actor, body: Option<UpdateBody>, now: Time, salt: nat) returns (o: Outcome)
      modifies userBus.store`users
      ensures (userBus.store.users, o) == HandleUpdate(TheEnv(), old(userBus.store.users), id, actor, body, now, salt)
    {
      if id.None? {
        return Failed(BadRequest);
      }
      if !actor.Acting? {
        return Failed(Unauthorized);
      }
      if actor.user.id != id.value {
        return Failed(Unauthorized);
      }
      if body.None? {
        return Failed(BadRequest);
      }
      var converted := ToBusUpdateUser(parseAddress, body.value);
      if converted.Panics? {
        return Panicked;
      }
      if converted.Rejects? {
        return Failed(BadRequest);
      }
      var updated := userBus.Update(actor.user, converted.update, now, salt);
      if updated == Err(ErrDuplicatedEmail) {
        return Failed(BadRequest);
      }
      if updated.Err? {
        return Failed(Internal);
      }
      o := Done(Some(updated.value));
    }

    method UpdateRole(id: Option<Uuid>, actor: Actor, roles: Option<seq<string>>, now: Time, salt: nat) returns (o: Outcome)
      modifies userBus.store`users
      ensures (userBus.store.users, o) == HandleRole(TheEnv(), old(userBus.store.users), id, actor, roles, now, salt)
    {
      if !actor.Acting? {
        return Failed(Unauthorized);
      }
      if !IsAdmin(actor.user.roles) {
        return Failed(Unauthorized);
      }
      if id.None? {
        return Failed(BadRequest);
      }
      if roles.None? {
        return Failed(BadRequest);
      }
      var update := ToBusUpdateRoles(userBus.store.roleTable, roles.value);
      if update.None? {
        return Failed(BadRequest);
      }
      var usr := userBus.QueryByID(id.value);
      if usr.Err? {
        return Failed(if usr.error == ErrUserNotFound then NotFound else Internal);
      }
      if !usr.value.enabled {
        return Failed(BadRequest);
      }
      var updated := userBus.Update(usr.value, update.value, now, salt);
      if updated.Err? {
        return Failed(Internal);
      }
      o := Done(Some(updated.value));
    }

    method DisableUser(id: Option<Uuid>, actor: Actor, now: Time, salt: nat) returns (o: Outcome)
      modifies userBus.store`users
      ensures (userBus.store.users, o) == HandleDisable(TheEnv(), old(userBus.store.users), id, actor)
    {
      if id.None? {
        return Failed(BadRequest);
      }
      if !actor.Acting? {
        return Failed(Unauthorized);
      }
      if id.value != actor.user.id && !IsAdmin(actor.user.roles) {
        return Failed(Unauthorized);
      }
      var target := userBus.QueryByID(id.value);
      if target.Err? {
        return Failed(if target.error == ErrUserNotFound then NotFound else Internal);
      }
      var converted := ToBusUpdateUser(parseAddress, UpdateBody(None, None, None, None, Some(false)));
      // no email to dereference: the update call after this line is never reached
      assert converted.Panics?;
      o := Panicked;
    }
  }

  // ----- safety of one request

  /** The acting user, if there is one, is as currently stored: no write came between. */
  ghost predicate CurrentActor(env: Env, t: Table, req: Request) {
    req.actor.Acting? ==> Current(env.rt, t, req.actor.user)
  }

  ghost predicate Healthy(env: Env, t: Table) {
    Faithful(env.rt) && Consistent(t) && AllCanonical(env.rt, t)
  }

  /** The request's acting user owns the row or is an admin. */
  ghost predicate ActsOn(req: Request, id: Uuid) {
    req.actor.Acting? && (req.actor.user.id == id || IsAdmin(req.actor.user.roles))
  }

  /** The row is gone or different. */
  ghost predicate Touched(t: Table, t': Table, id: Uuid) {
    id in t && (id !in t' || t'[id] != t[id])
  }

  /** What one write by id may do to the other rows and to the set of ids. */
  ghost predicate OnlyRow(t: Table, t': Table, id: Uuid) {
    t'.Keys <= t.Keys && forall k :: k in t && k != id ==> k in t' && t'[k] == t[k]
  }

  lemma UpdateHealthy(env: Env, t: Table, usr: User, u: UpdateUser, salt: nat, now: Time)
    requires Healthy(env, t) && Known(env.rt, usr.roles) && (u.roles.Some? ==> Known(env.rt, u.roles.value))
    ensures Healthy(env, UpdatedBy(env.hash, t, usr, u, salt, now).0)
    ensures UpdatedBy(env.hash, t, usr, u, salt, now).0.Keys == t.Keys
  {
    Runs.UpdateKeeps(env.rt, env.hash, t, Runs.Update(usr, u, now, salt));
  }

  lemma UpdateMoves(hash: Hasher, t: Table, usr: User, u: UpdateUser, salt: nat, now: Time)
    requires usr.id in t
    ensures var (t', r) := UpdatedBy(hash, t, usr, u, salt, now); OnlyRow(t, t', usr.id) && (r.Err? ==> t' == t)
  {
    if UpdatedBy(hash, t, usr, u, salt, now).1.Ok? {
      UpdateSucceeds(hash, t, usr, u, salt, now);
    }
  }

  lemma UpdateOnlyRow(env: Env, t: Table, usr: User, u: UpdateUser, salt: nat, now: Time)
    requires Healthy(env, t) && Current(env.rt, t, usr) && (u.roles.Some? ==> Known(env.rt, u.roles.value))
    ensures var (t', r) := UpdatedBy(env.hash, t, usr, u, salt, now);
            Healthy(env, t') && OnlyRow(t, t', usr.id) && t'.Keys == t.Keys && (r.Err? ==> t' == t)
  {
    CurrentRow(env.rt, t, usr);
    UpdateHealthy(env, t, usr, u, salt, now);
    UpdateMoves(env.hash, t, usr, u, salt, now);
  }

  lemma FoundCurrent(env: Env, t: Table, id: Uuid)
    requires Healthy(env, t) && id in t
    ensures Found(env.rt, t, id).Ok? && Current(env.rt, t, Found(env.rt, t, id).value)
    ensures Found(env.rt, t, id).value.id == id && Found(env.rt, t, id).value.enabled == t[id].enabled
  {
    ReadThenWrite(env.rt, t[id]);
  }

  lemma ParsedKnown(rt: RoleTable, names: seq<string>)
    requires Faithful(rt) && ParseMany(rt, names).Some?
    ensures Known(rt, ParseMany(rt, names).value)
  {
  }

  /** The acting user owns the id or is an admin. */
  ghost predicate Allowed(id: Uuid, actor: Actor) {
    actor.Acting? && (actor.user.id == id || IsAdmin(actor.user.roles))
  }

  ghost predicate MayDelete(t: Table, id: Option<Uuid>, actor: Actor) {
    id.Some? && id.value in t && Allowed(id.value, actor)
  }

  /** A delete request succeeds exactly when its target exists and its actor is the owner or an admin; then
      it removes that row, and otherwise nothing, with the status of the first check that fails. */
  lemma DeleteSafe(env: Env, t: Table, id: Option<Uuid>, actor: Actor)
    requires Healthy(env, t)
    ensures var (t', o) := HandleDelete(env, t, id, actor);
            && (o.Done? <==> MayDelete(t, id, actor)) && (o.Done? ==> o.user == None) && !o.Panicked?
            && (o == Failed(BadRequest) <==> id.None?)
            && (o == Failed(Unauthorized) <==> id.Some? && !Allowed(id.value, actor))
            && (o == Failed(NotFound) <==> id.Some? && Allowed(id.value, actor) && id.value !in t)
            && t' == if MayDelete(t, id, actor) then t - {id.value} else t
  {
    if id.Some? && id.value in t {
      FoundCurrent(env, t, id.value);
    }
  }

  lemma DeleteHealthy(env: Env, t: Table, id: Option<Uuid>, actor: Actor)
    requires Healthy(env, t)
    ensures Healthy(env, HandleDelete(env, t, id, actor).0)
  {
    DeleteSafe(env, t, id, actor);
    if MayDelete(t, id, actor) {
      Runs.DeleteKeeps(env.rt, t, id.value);
    }
  }

  /** An update request changes at most its owner's row, and never roles or creation time; it panics
      exactly when an owner's well-formed body leaves out the email. */
  lemma UpdateSafe(env: Env, t: Table, id: Option<Uuid>, actor: Actor, body: Option<UpdateBody>, now: Time, salt: nat)
    requires Healthy(env, t) && (actor.Acting? ==> Current(env.rt, t, actor.user))
    ensures var (t', o) := HandleUpdate(env, t, id, actor, body, now, salt);
            && Healthy(env, t') && t'.Keys == t.Keys && (!o.Done? ==> t' == t)
            && (o.Panicked? <==> actor.Acting? && id == Some(actor.user.id) && body.Some? && body.value.email.None?)
            && (t' != t ==> actor.Acting? && id == Some(actor.user.id) && OnlyRow(t, t', actor.user.id))
            && (forall k :: k in t ==> t'[k].roles == t[k].roles && t'[k].createdAt == t[k].createdAt)
  {
    if id.Some? && actor.Acting? && actor.user.id == id.value && body.Some? {
      var converted := ToBusUpdateUser(env.parseAddress, body.value);
      if converted.Converts? {
        UpdateOnlyRow(env, t, actor.user, converted.update, salt, now);
        if UpdatedBy(env.hash, t, actor.user, converted.update, salt, now).1.Ok? {
          UpdateSetsFields(env.rt, env.hash, t, actor.user, converted.update, salt, now);
        }
      }
    }
  }

  /** Replacing the roles of a stored user always succeeds, and stores exactly the new roles and time. */
  lemma RoleUpdateEffect(env: Env, t: Table, target: User, names: seq<string>, now: Time, salt: nat)
    requires Healthy(env, t) && Current(env.rt, t, target) && ParseMany(env.rt, names).Some?
    ensures var (t', r) := UpdatedBy(env.hash, t, target, ToBusUpdateRoles(env.rt, names).value, salt, now);
            && Healthy(env, t') && t'.Keys == t.Keys && OnlyRow(t, t', target.id)
            && r.Ok? && t'[target.id] == t[target.id].(roles := DriverArray.ElementsOf(names), updatedAt := Micro(now))
  {
    var u := ToBusUpdateRoles(env.rt, names).value;
    var usr := Apply(env.hash, target, u, salt, now).value;
    ParsedKnown(env.rt, names);
    ConversionsInvert(env.rt, [], names);
    CurrentRow(env.rt, t, target);
    WrittenKnown(env.rt, usr);
    AsStoredExactly(usr);
    AppliedUpdateSucceeds(env.hash, t, target, u, salt, now, usr);
    UpdateOnlyRow(env, t, target, u, salt, now);
  }

  /** The row as the body changes it: each column that it names, the email, and the update time. */
  ghost predicate BodyStored(env: Env, row: Row, row': Row, b: UpdateBody, now: Time, salt: nat)
    requires b.email.Some? && env.parseAddress(b.email.value).Some?
  {
    && row'.id == row.id && row'.roles == row.roles && row'.createdAt == row.createdAt && row'.updatedAt == Micro(now)
    && CutOrKept(NAME_LIMIT, b.name, row.name, row'.name) && row'.enabled == OrKept(b.enabled, row.enabled)
    && Cut(EMAIL_LIMIT, env.parseAddress(b.email.value).value.address) == Some(row'.email)
    && (if b.department.None? then row'.department == row.department
        else if b.department.value == "" then row'.department == None
        else row'.department.Some? && Cut(DEPARTMENT_LIMIT, b.department.value) == row'.department)
    && (if b.password.Some? then env.hash(b.password.value, salt) == Some(row'.passwordHash)
        else row'.passwordHash == row.passwordHash)
  }

  /** A successful update request stores what its body names, under the parsed email and as the columns store
      it, and keeps the rest. */
  lemma UpdateDone(env: Env, t: Table, id: Option<Uuid>, actor: Actor, body: Option<UpdateBody>, now: Time, salt: nat)
    requires Healthy(env, t) && actor.Acting? && Current(env.rt, t, actor.user)
    requires HandleUpdate(env, t, id, actor, body, now, salt).1.Done?
    ensures body.Some? && body.value.email.Some? && env.parseAddress(body.value.email.value).Some?
    ensures var t' := HandleUpdate(env, t, id, actor, body, now, salt).0;
            BodyStored(env, t[actor.user.id], t'[actor.user.id], body.value, now, salt)
  {
    var u := ToBusUpdateUser(env.parseAddress, body.value).update;
    UpdateSetsFields(env.rt, env.hash, t, actor.user, u, salt, now);
  }

  /** The request is for the acting user's own id. */
  ghost predicate Owner(id: Option<Uuid>, actor: Actor) {
    actor.Acting? && id == Some(actor.user.id)
  }

  /** The body has an email that parses. */
  ghost predicate Addressed(env: Env, body: UpdateBody) {
    body.email.Some? && env.parseAddress(body.email.value).Some?
  }

  /** Everything the body names can be stored. */
  ghost predicate Storable(env: Env, body: UpdateBody, salt: nat)
    requires Addressed(env, body)
  {
    && Cut(EMAIL_LIMIT, env.parseAddress(body.email.value).value.address).Some?
    && (body.name.Some? ==> Cut(NAME_LIMIT, body.name.value).Some?)
    && (body.department.Some? ==> Cut(DEPARTMENT_LIMIT, body.department.value).Some?)
    && (body.password.Some? ==> env.hash(body.password.value, salt).Some?)
  }

  /** Another row has the address as its column would store it. */
  ghost predicate Taken(t: Table, id: Uuid, address: string) {
    exists k :: k in t && k != id && Some(t[k].email) == Cut(EMAIL_LIMIT, address)
  }

  /** When an owner's update with a parsable email is done, and what else it ends in. */
  lemma OwnerOutcome(env: Env, t: Table, actor: User, body: UpdateBody, now: Time, salt: nat)
    requires Healthy(env, t) && Current(env.rt, t, actor) && Addressed(env, body)
    ensures var (t', o) := HandleUpdate(env, t, Some(actor.id), Acting(actor), Some(body), now, salt);
            var email := env.parseAddress(body.email.value).value;
            && (o.Done? <==> Storable(env, body, salt) && !Taken(t, actor.id, email.address))
            && (o == Failed(BadRequest) <==> Storable(env, body, salt) && Taken(t, actor.id, email.address))
            && (o == Failed(Internal) <==> !Storable(env, body, salt))
            && (!o.Done? ==> t' == t)
            && (o.Done? ==>
                  && o.user.Some?
                  && o.user.value.id == actor.id && o.user.value.email == email && o.user.value.roles == actor.roles
                  && o.user.value.createdAt == actor.createdAt && o.user.value.updatedAt == now
                  && o.user.value.name == (if body.name.Some? then body.name.value else actor.name)
                  && o.user.value.department == (if body.department.Some? then body.department.value else actor.department)
                  && o.user.value.enabled == (if body.enabled.Some? then body.enabled.value else actor.enabled)
                  && (if body.password.Some? then env.hash(body.password.value, salt) == Some(o.user.value.passwordHash)
                      else o.user.value.passwordHash == actor.passwordHash))
  {
    var u := ToBusUpdateUser(env.parseAddress, body).update;
    CurrentRow(env.rt, t, actor);
    UserBus.UpdateAnswers(env.rt, env.hash, t, actor, u, salt, now);
    if UpdatedBy(env.hash, t, actor, u, salt, now).1.Ok? {
      UpdateReturns(env.hash, t, actor, u, salt, now);
    }
  }

  /** How an update request ends. It is done exactly for an owner with a body whose email parses, if all that it
      names can be stored and no other row has the address; a taken address is a bad request. */
  lemma UpdateOutcome(env: Env, t: Table, id: Option<Uuid>, actor: Actor, body: Option<UpdateBody>, now: Time, salt: nat)
    requires Healthy(env, t) && (actor.Acting? ==> Current(env.rt, t, actor.user))
    ensures var o := HandleUpdate(env, t, id, actor, body, now, salt).1;
            var good := Owner(id, actor) && body.Some? && Addressed(env, body.value);
            && (o.Done? <==>
                good && Storable(env, body.value, salt) &&
                !Taken(t, actor.user.id, env.parseAddress(body.value.email.value).value.address))
            && (o == Failed(Unauthorized) <==> id.Some? && !Owner(id, actor))
            && (o == Failed(BadRequest) <==>
                id.None? || (Owner(id, actor) && body.None?) ||
                (Owner(id, actor) && body.value.email.Some? && !Addressed(env, body.value)) ||
                (good && Storable(env, body.value, salt) &&
                 Taken(t, actor.user.id, env.parseAddress(body.value.email.value).value.address)))
            && (o == Failed(Internal) <==> good && !Storable(env, body.value, salt))
            && (o.Panicked? <==> Owner(id, actor) && body.Some? && body.value.email.None?)
            && o != Failed(NotFound)
  {
    if Owner(id, actor) && body.Some? && Addressed(env, body.value) {
      OwnerOutcome(env, t, actor.user, body.value, now, salt);
    }
  }

  ghost predicate MayChangeRoles(env: Env, t: Table, id: Option<Uuid>, actor: Actor, roles: Option<seq<string>>) {
    && actor.Acting? && IsAdmin(actor.user.roles) && id.Some? && roles.Some?
    && id.value in t && t[id.value].enabled && forall i :: 0 <= i < |roles.value| ==> roles.value[i] in env.rt
  }

  lemma RoleOutcome(env: Env, t: Table, id: Option<Uuid>, actor: Actor, roles: Option<seq<string>>, now: Time, salt: nat)
    requires Healthy(env, t)
    ensures var (t', o) := HandleRole(env, t, id, actor, roles, now, salt);
            if MayChangeRoles(env, t, id, actor, roles)
            then
              Found(env.rt, t, id.value).Ok? &&
              var target := Found(env.rt, t, id.value).value;
              (t', o.Done?) == (var (t1, r) := UpdatedBy(env.hash, t, target, ToBusUpdateRoles(env.rt, roles.value).value, salt, now);
                                (t1, r.Ok?))
            else t' == t && !o.Done?
  {
    if id.Some? && id.value in t {
      FoundCurrent(env, t, id.value);
    }
  }

  /** A role request alters at most the roles and update time of one enabled row, for an admin only. */
  lemma RoleSafe(env: Env, t: Table, id: Option<Uuid>, actor: Actor, roles: Option<seq<string>>, now: Time, salt: nat)
    requires Healthy(env, t)
    ensures var (t', o) := HandleRole(env, t, id, actor, roles, now, salt);
            && Healthy(env, t') && t'.Keys == t.Keys && (!o.Done? ==> t' == t)
            && (t' != t ==> actor.Acting? && IsAdmin(actor.user.roles) && id.Some? && OnlyRow(t, t', id.value))
            && (forall k :: k in t ==>
                  t'[k] == t[k].(roles := t'[k].roles, updatedAt := t'[k].updatedAt) && (t'[k] != t[k] ==> t[k].enabled))
            && (o.Done? <==> MayChangeRoles(env, t, id, actor, roles))
            && (o.Done? ==> t'[id.value].roles == DriverArray.ElementsOf(roles.value))
  {
    RoleOutcome(env, t, id, actor, roles, now, salt);
    if MayChangeRoles(env, t, id, actor, roles) {
      FoundCurrent(env, t, id.value);
      RoleUpdateEffect(env, t, Found(env.rt, t, id.value).value, roles.value, now, salt);
    }
  }

  /** How a role request ends; a done one replies the stored user with the new roles and the clock as it is. */
  lemma RoleReplies(env: Env, t: Table, id: Option<Uuid>, actor: Actor, roles: Option<seq<string>>, now: Time, salt: nat)
    requires Healthy(env, t)
    ensures var o := HandleRole(env, t, id, actor, roles, now, salt).1;
            var admin := actor.Acting? && IsAdmin(actor.user.roles);
            var bound := id.Some? && roles.Some? && forall i :: 0 <= i < |roles.value| ==> roles.value[i] in env.rt;
            && (o.Done? <==> admin && bound && id.value in t && t[id.value].enabled)
            && (o == Failed(Unauthorized) <==> !admin)
            && (o == Failed(BadRequest) <==> admin && (!bound || (id.value in t && !t[id.value].enabled)))
            && (o == Failed(NotFound) <==> admin && bound && id.value !in t)
            && (o.Done? ==>
                  && o.user.Some? && ReadBack(env.rt, t[id.value]).Some?
                  && o.user.value == ReadBack(env.rt, t[id.value]).value.(roles := o.user.value.roles, updatedAt := now)
                  && Roles.Names(o.user.value.roles) == roles.value)
  {
    if MayChangeRoles(env, t, id, actor, roles) {
      FoundCurrent(env, t, id.value);
      var target := Found(env.rt, t, id.value).value;
      ConversionsInvert(env.rt, [], roles.value);
      RoleUpdateEffect(env, t, target, roles.value, now, salt);
      UpdateReturns(env.hash, t, target, ToBusUpdateRoles(env.rt, roles.value).value, salt, now);
    } else if id.Some? && id.value in t {
      FoundCurrent(env, t, id.value);
    }
  }

  /** How a disable request ends. */
  lemma DisableOutcome(env: Env, t: Table, id: Option<Uuid>, actor: Actor)
    requires Healthy(env, t)
    ensures var o := HandleDisable(env, t, id, actor).1;
            && (o == Failed(BadRequest) <==> id.None?)
            && (o == Failed(Unauthorized) <==> id.Some? && !Allowed(id.value, actor))
            && (o == Failed(NotFound) <==> id.Some? && Allowed(id.value, actor) && id.value !in t)
            && (o.Panicked? <==> id.Some? && Allowed(id.value, actor) && id.value in t)
  {
    if id.Some? && id.value in t {
      FoundCurrent(env, t, id.value);
    }
  }

  /** No disable request ever disables anyone: each one fails or panics, and it panics exactly when the
      request was allowed and its target could be read. */
  lemma DisableNeverSucceeds(env: Env, t: Table, id: Option<Uuid>, actor: Actor)
    ensures var (t', o) := HandleDisable(env, t, id, actor);
            && t' == t && !o.Done?
            && (o.Panicked? <==>
                id.Some? && actor.Acting? && (id.value == actor.user.id || IsAdmin(actor.user.roles)) &&
                Found(env.rt, t, id.value).Ok?)
  {
  }

  /** With any snapshot, current or stale, a successful update request writes every column but the email
      that its body leaves out from the snapshot: the stored value stays exactly when the snapshot has it. */
  lemma StaleSnapshot(env: Env, t: Table, id: Option<Uuid>, actor: Actor, body: Option<UpdateBody>, now: Time, salt: nat)
    requires HandleUpdate(env, t, id, actor, body, now, salt).1.Done? && id.value in t
    ensures var (t', _) := HandleUpdate(env, t, id, actor, body, now, salt);
            && id.value in t'
            && var row, row', snapshot, b := t[id.value], t'[id.value], FromBusUser(actor.user), body.value;
               && (row'.roles == row.roles <==> Write(snapshot.roles) == Some(row.roles))
               && (b.name.None? ==> (row'.name == row.name <==> Cut(NAME_LIMIT, snapshot.name) == Some(row.name)))
               && (b.department.None? ==>
                     (row'.department == row.department <==>
                      CutIfAny(DEPARTMENT_LIMIT, snapshot.department) == Some(row.department)))
               && (b.password.None? ==> (row'.passwordHash == row.passwordHash <==> snapshot.passwordHash == row.passwordHash))
               && (b.enabled.None? ==> (row'.enabled == row.enabled <==> snapshot.enabled == row.enabled))
  {
    var u := ToBusUpdateUser(env.parseAddress, body.value).update;
    UpdateSucceeds(env.hash, t, actor.user, u, salt, now);
  }

  /** A stale snapshot can bring back a role that was taken away: stored `user`, snapshot `admin`. */
  lemma StaleSnapshotExample()
    ensures var env := Env(VALID_ROLES, (p, s) => None, a => Some(MailAddress("", a)));
            var t: Table := map[1 := Row(1, "n", "e", [Some("user")], "h", None, true, 0, 0)];
            var stale := User(1, "n", MailAddress("n", "e"), [ROLE_ADMIN], "h", "", true, 0, 0);
            var (t', o) := HandleUpdate(env, t, Some(1), Acting(stale), Some(UpdateBody(None, Some("e"), None, None, None)), 0, 0);
            o.Done? && 1 in t' && t'[1].roles == [Some("admin")]
  {
    AdminColumn();
  }

  /** An admin's request to replace the roles of this user. */
  ghost predicate AdminSetsRoles(req: Request, id: Uuid) {
    req.RoleRequest? && req.id == Some(id) && req.actor.Acting? && IsAdmin(req.actor.user.roles)
  }

  /** An owner's request to update this user. */
  ghost predicate OwnerUpdates(req: Request, id: Uuid) {
    req.UpdateRequest? && req.id == Some(id) && req.actor.Acting? && req.actor.user.id == id
  }

  /** An owner's or admin's request to delete this user. */
  ghost predicate Deletes(req: Request, id: Uuid) {
    req.DeleteRequest? && req.id == Some(id) && ActsOn(req, id)
  }

  /** The rows differ in more than roles and update time. */
  ghost predicate DifferBeyondRoles(a: Row, b: Row) {
    a != b.(roles := a.roles, updatedAt := a.updatedAt)
  }

  /** One request on a healthy table, with a current acting user: only the owner or an admin changes or
      removes a row, failed and panicking requests change nothing, and the table stays healthy. */
  lemma RequestSafe(env: Env, t: Table, req: Request)
    requires Healthy(env, t) && CurrentActor(env, t, req)
    ensures var (t', o) := Handle(env, t, req);
            && Healthy(env, t') && t'.Keys <= t.Keys && (!o.Done? ==> t' == t)
            && (forall id: Uuid :: Touched(t, t', id) ==> ActsOn(req, id) && req.id == Some(id))
            && (!req.DeleteRequest? ==> t'.Keys == t.Keys)
            && (forall id :: id in t' && t'[id].roles != t[id].roles ==> AdminSetsRoles(req, id))
            && (forall id :: id in t' && DifferBeyondRoles(t'[id], t[id]) ==> OwnerUpdates(req, id))
            && (forall id :: id in t && id !in t' ==> Deletes(req, id))
  {
    match req
    case DeleteRequest(id, actor) =>
      DeleteSafe(env, t, id, actor);
      DeleteHealthy(env, t, id, actor);
    case UpdateRequest(id, actor, body, now, salt) =>
      UpdateSafe(env, t, id, actor, body, now, salt);
    case RoleRequest(id, actor, roles, now, salt) =>
      RoleSafe(env, t, id, actor, roles, now, salt);
    case DisableRequest(id, actor, now, salt) =>
      DisableNeverSucceeds(env, t, id, actor);
  }

  /** Exactly which requests of each kind are done. */
  ghost predicate ToBeDone(env: Env, t: Table, req: Request) {
    match req
    case DeleteRequest(id, actor) => MayDelete(t, id, actor)
    case UpdateRequest(id, actor, body, _, salt) =>
      && Owner(id, actor) && body.Some? && Addressed(env, body.value) && Storable(env, body.value, salt)
      && !Taken(t, actor.user.id, env.parseAddress(body.value.email.value).value.address)
    case RoleRequest(id, actor, roles, _, _) => MayChangeRoles(env, t, id, actor, roles)
    case DisableRequest(_, _, _, _) => false
  }

  /** A request is done exactly under the condition of its kind, and then leaves exactly the row it names gone,
      changed as its body says, or with the new roles. */
  lemma RequestDone(env: Env, t: Table, req: Request)
    requires Healthy(env, t) && CurrentActor(env, t, req)
    ensures var (t', o) := Handle(env, t, req);
            && (o.Done? <==> ToBeDone(env, t, req))
            && (o.Done? && req.DeleteRequest? ==> t' == t - {req.id.value})
            && (o.Done? && req.UpdateRequest? ==>
                  && req.id.value in t && t'.Keys == t.Keys && OnlyRow(t, t', req.id.value)
                  && BodyStored(env, t[req.id.value], t'[req.id.value], req.body.value, req.now, req.salt))
            && (o.Done? && req.RoleRequest? ==>
                  t' == t[req.id.value := t[req.id.value].(roles := DriverArray.ElementsOf(req.roles.value),
                                                           updatedAt := Micro(req.now))])
  {
    match req
    case DeleteRequest(id, actor) => DeleteSafe(env, t, id, actor);
    case UpdateRequest(id, actor, body, now, salt) =>
      UpdateOutcome(env, t, id, actor, body, now, salt);
      if ToBeDone(env, t, req) {
        UpdateSafe(env, t, id, actor, body, now, salt);
        UpdateDone(env, t, id, actor, body, now, salt);
      }
    case RoleRequest(id, actor, roles, now, salt) =>
      RoleReplies(env, t, id, actor, roles, now, salt);
      if ToBeDone(env, t, req) {
        RoleStored(env, t, id.value, actor, roles.value, now, salt);
      }
    case DisableRequest(id, actor, now, salt) => DisableNeverSucceeds(env, t, id, actor);
  }

  lemma RoleStored(env: Env, t: Table, id: Uuid, actor: Actor, roles: seq<string>, now: Time, salt: nat)
    requires Healthy(env, t) && MayChangeRoles(env, t, Some(id), actor, Some(roles))
    ensures HandleRole(env, t, Some(id), actor, Some(roles), now, salt).0 ==
            t[id := t[id].(roles := DriverArray.ElementsOf(roles), updatedAt := Micro(now))]
  {
    RoleOutcome(env, t, Some(id), actor, Some(roles), now, salt);
    FoundCurrent(env, t, id);
    var target := Found(env.rt, t, id).value;
    RoleUpdateEffect(env, t, target, roles, now, salt);
    var t' := HandleRole(env, t, Some(id), actor, Some(roles), now, salt).0;
    assert forall k :: k in t' ==> t'[k] == if k == id then t'[id] else t[k];
  }

  // ----- whole runs of requests

  function After(env: Env, t: Table, reqs: seq<Request>): Table
    decreases |reqs|
  {
    if |reqs| == 0 then t else After(env, Handle(env, t, reqs[0]).0, reqs[1..])
  }

  /** Every request of the run is made by a user as stored at that moment. */
  ghost predicate CurrentRun(env: Env, t: Table, reqs: seq<Request>)
    decreases |reqs|
  {
    |reqs| > 0 ==> CurrentActor(env, t, reqs[0]) && CurrentRun(env, Handle(env, t, reqs[0]).0, reqs[1..])
  }

  ghost predicate ByOwner(req: Request, id: Uuid) {
    req.actor.Acting? && req.actor.user.id == id
  }

  ghost predicate Acted(reqs: seq<Request>, id: Uuid) {
    exists req :: req in reqs && ActsOn(req, id) && req.id == Some(id)
  }

  ghost predicate RolesSet(reqs: seq<Request>, id: Uuid) {
    exists req :: req in reqs && AdminSetsRoles(req, id)
  }

  ghost predicate Updated(reqs: seq<Request>, id: Uuid) {
    exists req :: req in reqs && OwnerUpdates(req, id)
  }

  ghost predicate Deleted(reqs: seq<Request>, id: Uuid) {
    exists req :: req in reqs && Deletes(req, id)
  }

  ghost predicate AskedByOwner(reqs: seq<Request>, id: Uuid) {
    exists req :: req in reqs && ByOwner(req, id)
  }

  /** What a run did, it did in its first request or later. */
  lemma RunSplits(req: Request, rest: seq<Request>, reqs: seq<Request>, id: Uuid)
    requires reqs == [req] + rest
    ensures Acted(reqs, id) <==> (ActsOn(req, id) && req.id == Some(id)) || Acted(rest, id)
    ensures RolesSet(reqs, id) <==> AdminSetsRoles(req, id) || RolesSet(rest, id)
    ensures Updated(reqs, id) <==> OwnerUpdates(req, id) || Updated(rest, id)
    ensures Deleted(reqs, id) <==> Deletes(req, id) || Deleted(rest, id)
    ensures AskedByOwner(reqs, id) <==> ByOwner(req, id) || AskedByOwner(rest, id)
  {
    assert forall r :: r in reqs <==> r == req || r in rest;
  }

  /** What happened to one row is answered for by some request. */
  ghost predicate Explained(t: Table, t': Table, reqs: seq<Request>, id: Uuid) {
    && (Touched(t, t', id) ==> Acted(reqs, id))
    && (id in t && id in t' && t'[id].roles != t[id].roles ==> RolesSet(reqs, id))
    && (id in t && id in t' && DifferBeyondRoles(t'[id], t[id]) ==> Updated(reqs, id))
    && (id in t && id !in t' ==> Deleted(reqs, id))
  }

  lemma ExplainedOn(t: Table, t1: Table, t2: Table, req: Request, rest: seq<Request>, reqs: seq<Request>, id: Uuid)
    requires reqs == [req] + rest && t2.Keys <= t1.Keys <= t.Keys && Explained(t1, t2, rest, id)
    requires Touched(t, t1, id) ==> ActsOn(req, id) && req.id == Some(id)
    requires id in t1 && t1[id].roles != t[id].roles ==> AdminSetsRoles(req, id)
    requires id in t1 && DifferBeyondRoles(t1[id], t[id]) ==> OwnerUpdates(req, id)
    requires id in t && id !in t1 ==> Deletes(req, id)
    ensures Explained(t, t2, reqs, id)
  {
    RunSplits(req, rest, reqs, id);
  }

  lemma StepExplained(env: Env, t: Table, req: Request, rest: seq<Request>, reqs: seq<Request>, t2: Table, id: Uuid)
    requires Healthy(env, t) && CurrentActor(env, t, req) && reqs == [req] + rest
    requires t2.Keys <= Handle(env, t, req).0.Keys && Explained(Handle(env, t, req).0, t2, rest, id)
    ensures Explained(t, t2, reqs, id)
  {
    RequestSafe(env, t, req);
    ExplainedOn(t, Handle(env, t, req).0, t2, req, rest, reqs, id);
  }

  /** In every run, a row that ends up changed or gone was acted on by its owner or an admin: with other roles,
      by an admin's role request; changed beyond roles and update time, by its owner's update request; and
      gone, by a delete request. */
  lemma {:induction false} RunSafe(env: Env, t: Table, reqs: seq<Request>)
    requires Healthy(env, t) && CurrentRun(env, t, reqs)
    ensures Healthy(env, After(env, t, reqs)) && After(env, t, reqs).Keys <= t.Keys
    ensures forall id: Uuid :: Explained(t, After(env, t, reqs), reqs, id)
    decreases |reqs|
  {
    if |reqs| > 0 {
      var t1 := Handle(env, t, reqs[0]).0;
      RequestSafe(env, t, reqs[0]);
      RunSafe(env, t1, reqs[1..]);
      forall id: Uuid
        ensures Explained(t, After(env, t, reqs), reqs, id)
      {
        StepExplained(env, t, reqs[0], reqs[1..], reqs, After(env, t, reqs), id);
      }
    }
  }

  /** Nobody stored in the table holds the admin role. */
  ghost predicate NoAdmins(t: Table) {
    forall id :: id in t ==> Some("admin") !in t[id].roles
  }

  lemma AdminIsStored(env: Env, t: Table, usr: User)
    requires Healthy(env, t) && Current(env.rt, t, usr) && IsAdmin(usr.roles)
    ensures Some(ROLE_ADMIN.value) in t[usr.id].roles
  {
    CurrentRow(env.rt, t, usr);
    AdminElement(usr.roles);
  }

  lemma NotAnAdmin(env: Env, t: Table, req: Request)
    requires Healthy(env, t) && NoAdmins(t) && CurrentActor(env, t, req)
    ensures req.actor.Acting? ==> !IsAdmin(req.actor.user.roles)
  {
    if req.actor.Acting? && IsAdmin(req.actor.user.roles) {
      AdminIsStored(env, t, req.actor.user);
    }
  }

  lemma FirstOrLater(reqs: seq<Request>)
    requires |reqs| > 0
    ensures forall req :: req in reqs <==> req == reqs[0] || req in reqs[1..]
  {
    assert reqs == [reqs[0]] + reqs[1..];
  }

  lemma NoAdminsStay(t: Table, t': Table, req: Request)
    requires NoAdmins(t) && t'.Keys <= t.Keys
    requires forall id :: id in t' && t'[id].roles != t[id].roles ==> AdminSetsRoles(req, id)
    requires req.actor.Acting? ==> !IsAdmin(req.actor.user.roles)
    ensures NoAdmins(t')
  {
    forall id | id in t'
      ensures Some(ROLE_ADMIN.value) !in t'[id].roles
    {
      assert !AdminSetsRoles(req, id);
    }
  }

  /** Without a stored admin, no admin acts in any run of these requests. */
  lemma {:induction false} NoAdminActs(env: Env, t: Table, reqs: seq<Request>)
    requires Healthy(env, t) && NoAdmins(t) && CurrentRun(env, t, reqs)
    ensures forall req :: req in reqs && req.actor.Acting? ==> !IsAdmin(req.actor.user.roles)
    decreases |reqs|
  {
    if |reqs| > 0 {
      RequestSafe(env, t, reqs[0]);
      NotAnAdmin(env, t, reqs[0]);
      NoAdminsStay(t, Handle(env, t, reqs[0]).0, reqs[0]);
      NoAdminActs(env, Handle(env, t, reqs[0]).0, reqs[1..]);
      FirstOrLater(reqs);
    }
  }

  lemma WithoutAdmins(t: Table, t': Table, reqs: seq<Request>, id: Uuid)
    requires t'.Keys <= t.Keys && Explained(t, t', reqs, id)
    requires forall req :: req in reqs && req.actor.Acting? ==> !IsAdmin(req.actor.user.roles)
    ensures id in t' ==> t'[id].roles == t[id].roles
    ensures Touched(t, t', id) ==> AskedByOwner(reqs, id)
  {
    assert !RolesSet(reqs, id);
    if req :| req in reqs && ActsOn(req, id) && req.id == Some(id) {
      assert ByOwner(req, id);
    }
  }

  /** So none is made: surviving rows keep their roles, and each row is changed or removed only on its
      owner's own request. */
  lemma NoEscalation(env: Env, t: Table, reqs: seq<Request>)
    requires Healthy(env, t) && NoAdmins(t) && CurrentRun(env, t, reqs)
    ensures NoAdmins(After(env, t, reqs)) && After(env, t, reqs).Keys <= t.Keys
    ensures forall id: Uuid :: id in After(env, t, reqs) ==> After(env, t, reqs)[id].roles == t[id].roles
    ensures forall id: Uuid :: Touched(t, After(env, t, reqs), id) ==> AskedByOwner(reqs, id)
  {
    RunSafe(env, t, reqs);
    NoAdminActs(env, t, reqs);
    forall id: Uuid
      ensures id in After(env, t, reqs) ==> After(env, t, reqs)[id].roles == t[id].roles
      ensures Touched(t, After(env, t, reqs), id) ==> AskedByOwner(reqs, id)
    {
      WithoutAdmins(t, After(env, t, reqs), reqs, id);
    }
  }
}
