/** The user API: role-scoped listing, the Admin-only write handlers and the profile (users/views.py). */
module Views {
  import opened Wrappers
  import opened Models

  // ---------------------------------------------------------------------------
  // Read scope
  // ---------------------------------------------------------------------------

  /**
   * get_queryset: the rows the actor may see. Admin sees the whole table,
   * Manager every row whose role is not Admin, any other role string only the
   * row with the actor's own id.
   */
  function Scope(actor: User, users: UserTable): (r: UserTable)
    ensures forall k | k in r :: k in users && r[k] == users[k]
  {
    match ParseRole(actor.role)
    case Some(Admin) => users
    case Some(Manager) => map k | k in users && users[k].role != RoleName(Admin) :: users[k]
    case _ => map k | k in users && k == actor.id :: users[k]
  }

  /** An Admin's scope is the whole table. */
  lemma AdminScopeIsWholeTable(actor: User, users: UserTable)
    requires actor.role == RoleName(Admin)
    ensures Scope(actor, users) == users
  {
  }

  /** A Manager's scope is exactly the rows whose role is not Admin. */
  lemma ManagerScopeIsNonAdmins(actor: User, users: UserTable)
    requires actor.role == RoleName(Manager)
    ensures forall k :: k in Scope(actor, users) <==> k in users && users[k].role != RoleName(Admin)
    ensures forall k | k in Scope(actor, users) :: Scope(actor, users)[k].role != RoleName(Admin)
  {
  }

  /**
   * Any role other than Admin and Manager, Employee or a string outside the
   * choices, sees at most its own row, and exactly that row when it is stored.
   */
  lemma OtherScopeIsSelf(actor: User, users: UserTable)
    requires actor.role != RoleName(Admin) && actor.role != RoleName(Manager)
    ensures Scope(actor, users).Keys == users.Keys * {actor.id}
    ensures |Scope(actor, users)| <= 1
    ensures actor.id in users ==> |Scope(actor, users)| == 1
  {
    var r := Scope(actor, users);
    assert r.Keys == users.Keys * {actor.id};
    if actor.id in users {
      assert r.Keys == {actor.id};
    } else {
      assert r.Keys == {};
    }
  }

  /** Whatever the actor's role, its own stored row is in its scope. */
  lemma OwnRowInScope(actor: User, users: UserTable)
    requires actor.id in users && users[actor.id] == actor
    ensures actor.id in Scope(actor, users) && Scope(actor, users)[actor.id] == actor
  {
  }

  /**
   * GET on /api/users/ and on /api/users/<pk>/ both reach the list handler:
   * the view has no retrieve action, and `pk` is never read.
   */
  function Get(actor: User, users: UserTable, pk: Option<nat>): (r: UserTable)
    ensures forall k | k in r :: k in users && r[k] == users[k]
  {
    Scope(actor, users)
  }

  /** A detail GET answers with the actor's whole scope, whether or not `pk` is in it. */
  lemma DetailGetListsWholeScope(actor: User, users: UserTable, pk: nat)
    ensures Get(actor, users, Some(pk)) == Get(actor, users, None)
    ensures Get(actor, users, Some(pk)) == Scope(actor, users)
  {
  }

  // ---------------------------------------------------------------------------
  // Profile
  // ---------------------------------------------------------------------------

  /** ProfileView.get_object: the authenticated actor's own row. */
  function Profile(actor: User): User {
    actor
  }

  /** Whatever the actor's role, the profile is a row the actor's own scope holds under its id. */
  lemma ProfileIsOwnRow(actor: User, users: UserTable)
    requires actor.id in users && users[actor.id] == actor
    ensures actor.id in Scope(actor, users) && Scope(actor, users)[actor.id] == Profile(actor)
  {
    OwnRowInScope(actor, users);
  }

  // ---------------------------------------------------------------------------
  // Replies and the write gate
  // ---------------------------------------------------------------------------

  /** A handler's answer: status code and what the body carries. */
  datatype Reply =
    | Created(user: User)
    | Updated(user: User)
    | Deleted
    | BadRequest(error: FieldError)
    | Forbidden(detail: string)
    | NotFound
    | MissingLookup
  {
    function Status(): nat {
      match this
      case Created(_) => 201
      case Updated(_) => 200
      case Deleted => 204
      case BadRequest(_) => 400
      case Forbidden(_) => 403
      case NotFound => 404
      case MissingLookup => 500
    }
  }

  /** The three guarded handlers: create, update, destroy. */
  datatype WriteOp = Add | Modify | Remove

  /** The fixed detail of each handler's 403. */
  function DenialDetail(op: WriteOp): string {
    match op
    case Add => "Only Admins can add users."
    case Modify => "Only Admins can update users."
    case Remove => "Only Admins can delete users."
  }

  /**
   * The check at the top of create, update and destroy: a 403 with the
   * handler's fixed detail unless the actor's role is exactly Admin.
   */
  function WriteGate(actor: User, op: WriteOp): (r: Option<Reply>)
    ensures r.None? <==> ParseRole(actor.role) == Some(Admin)
    ensures r.Some? ==> r.value.Status() == 403 && r.value == Forbidden(DenialDetail(op))
  {
    if actor.role != RoleName(Admin) then Some(Forbidden(DenialDetail(op))) else None
  }

  /** Every role but Admin, Manager included, is refused each of the three writes. */
  lemma NonAdminIsRefusedEveryWrite(actor: User, op: WriteOp)
    requires ParseRole(actor.role) != Some(Admin)
    ensures WriteGate(actor, op) == Some(Forbidden(DenialDetail(op)))
  {
  }

  // ---------------------------------------------------------------------------
  // Request bodies and their validation against the model's field rules
  // ---------------------------------------------------------------------------

  /** The fields a create request supplies; None where the body leaves a field out. */
  datatype NewUser = NewUser(username: string, email: Option<string>, password: Option<string>, role: Option<string>)

  /** The first field rule a create request breaks, if any. */
  function NewUserError(users: UserTable, data: NewUser): (r: Option<FieldError>)
    ensures r.None? <==>
      && ValidUsername(data.username)
      && !UsernameTaken(users, data.username)
      && (data.role.Some? ==> ValidRole(data.role.value))
    ensures r == Some(UsernameNotUnique) ==> UsernameTaken(users, data.username)
  {
    match UsernameFieldError(data.username)
    case Some(e) => Some(e)
    case None =>
      if UsernameTaken(users, data.username) then Some(UsernameNotUnique)
      else if data.role.Some? && !ValidRole(data.role.value) then Some(RoleNotAChoice)
      else None
  }

  /** The fields an update request supplies; None keeps the stored value. */
  datatype Changes = Changes(username: Option<string>, email: Option<string>, role: Option<string>)

  /** The first field rule an update of row `id` breaks, if any; the row's own username does not clash with itself. */
  function ChangesError(users: UserTable, id: nat, c: Changes): (r: Option<FieldError>)
    ensures r.None? <==>
      && (c.username.Some? ==> ValidUsername(c.username.value) && !UsernameTakenByOther(users, c.username.value, id))
      && (c.role.Some? ==> ValidRole(c.role.value))
  {
    if c.username.Some? && UsernameFieldError(c.username.value).Some? then UsernameFieldError(c.username.value)
    else if c.username.Some? && UsernameTakenByOther(users, c.username.value, id) then Some(UsernameNotUnique)
    else if c.role.Some? && !ValidRole(c.role.value) then Some(RoleNotAChoice)
    else None
  }

  /** A row with the supplied fields replaced. */
  function Apply(u: User, c: Changes): (r: User)
    ensures r.username == c.username.GetOr(u.username)
    ensures r.email == c.email.GetOr(u.email)
    ensures r.role == c.role.GetOr(u.role)
    ensures r.id == u.id && r.password == u.password
    ensures r.isStaff == u.isStaff && r.isSuperuser == u.isSuperuser
    ensures c == Changes(None, None, None) ==> r == u
  {
    u.(username := c.username.GetOr(u.username), email := c.email.GetOr(u.email), role := c.role.GetOr(u.role))
  }

  /** Sending the same update twice leaves the row as sending it once. */
  lemma ApplyIsIdempotent(u: User, c: Changes)
    ensures Apply(Apply(u, c), c) == Apply(u, c)
  {
  }

  /** A row that passes create validation meets every field rule of the model. */
  lemma ValidatedNewRowIsValid(users: UserTable, data: NewUser)
    requires NewUserError(users, data).None?
    ensures ValidUsername(data.username) && ValidRole(data.role.GetOr(DefaultRole))
    ensures 0 < |data.username| <= MaxUsernameLength && AllLetters(data.username)
  {
    ValidUsernameMeaning(data.username);
  }

  // ---------------------------------------------------------------------------
  // The write handlers
  // ---------------------------------------------------------------------------

  /**
   * create: the Admin gate, then validation of the request, then create_user
   * with the request's role (Employee when left out).
   */
  method Create(store: UserStore, actor: User, data: NewUser) returns (reply: Reply)
    requires store.Valid()
    modifies store
    ensures store.Valid()
    ensures actor.role != RoleName(Admin) ==> reply == Forbidden(DenialDetail(Add))
    ensures actor.role == RoleName(Admin) && NewUserError(old(store.users), data).Some? ==>
      reply == BadRequest(NewUserError(old(store.users), data).value)
    ensures reply.Created? <==> actor.role == RoleName(Admin) && NewUserError(old(store.users), data).None?
    ensures !reply.Created? ==> store.users == old(store.users) && store.nextId == old(store.nextId)
    ensures reply.Created? ==>
      && reply.user == User(old(store.nextId), data.username, store.normalizeEmail(data.email),
                            store.Credentials(data.password), data.role.GetOr(DefaultRole), false, false)
      && store.users == old(store.users)[old(store.nextId) := reply.user]
      && store.nextId == old(store.nextId) + 1
  {
    var denial := WriteGate(actor, Add);
    if denial.Some? {
      return denial.value;
    }
    var error := NewUserError(store.users, data);
    if error.Some? {
      return BadRequest(error.value);
    }
    var r := store.CreateUser(data.username, data.email, data.password, data.role, None, None);
    assert r.Success?;
    reply := Created(r.value);
  }

  /**
   * update (PUT and PATCH): the Admin gate, then the lookup of the route's `pk`
   * in the actor's scope, then validation, then the changed row is saved. On
   * the list route there is no `pk`, and the generic lookup fails its assertion.
   */
  method Update(store: UserStore, actor: User, pk: Option<nat>, changes: Changes) returns (reply: Reply)
    requires store.Valid()
    modifies store
    ensures store.Valid()
    ensures actor.role != RoleName(Admin) ==> reply == Forbidden(DenialDetail(Modify))
    ensures actor.role == RoleName(Admin) && pk.None? ==> reply == MissingLookup
    ensures actor.role == RoleName(Admin) && pk.Some? && pk.value !in old(store.users) ==> reply == NotFound
    ensures actor.role == RoleName(Admin) && pk.Some? && pk.value in old(store.users)
            && ChangesError(old(store.users), pk.value, changes).Some? ==>
      reply == BadRequest(ChangesError(old(store.users), pk.value, changes).value)
    ensures reply.Updated? <==>
      && actor.role == RoleName(Admin) && pk.Some? && pk.value in old(store.users)
      && ChangesError(old(store.users), pk.value, changes).None?
    ensures !reply.Updated? ==> store.users == old(store.users) && store.nextId == old(store.nextId)
    ensures reply.Updated? ==>
      && reply.user == Apply(old(store.users)[pk.value], changes)
      && store.users == old(store.users)[pk.value := reply.user]
      && store.nextId == old(store.nextId)
  {
    var denial := WriteGate(actor, Modify);
    if denial.Some? {
      return denial.value;
    }
    if pk.None? {
      return MissingLookup;
    }
    var id := pk.value;
    var visible := Scope(actor, store.users);
    AdminScopeIsWholeTable(actor, store.users);
    if id !in visible {
      return NotFound;
    }
    var error := ChangesError(store.users, id, changes);
    if error.Some? {
      return BadRequest(error.value);
    }
    var updated := Apply(visible[id], changes);
    ReplaceKeepsUnique(store.users, updated);
    store.users := store.users[id := updated];
    reply := Updated(updated);
  }

  /**
   * destroy: the Admin gate, then the lookup of the route's `pk` in the actor's
   * scope, then the row is deleted. On the list route there is no `pk`, and the
   * generic lookup fails its assertion.
   */
  method Destroy(store: UserStore, actor: User, pk: Option<nat>) returns (reply: Reply)
    requires store.Valid()
    modifies store
    ensures store.Valid()
    ensures actor.role != RoleName(Admin) ==> reply == Forbidden(DenialDetail(Remove))
    ensures actor.role == RoleName(Admin) && pk.None? ==> reply == MissingLookup
    ensures actor.role == RoleName(Admin) && pk.Some? && pk.value !in old(store.users) ==> reply == NotFound
    ensures reply == Deleted <==> actor.role == RoleName(Admin) && pk.Some? && pk.value in old(store.users)
    ensures reply != Deleted ==> store.users == old(store.users) && store.nextId == old(store.nextId)
    ensures reply == Deleted ==>
      && store.users.Keys == old(store.users).Keys - {pk.value}
      && |store.users| == |old(store.users)| - 1
      && (forall k | k in store.users :: store.users[k] == old(store.users)[k])
      && store.nextId == old(store.nextId)
  {
    var denial := WriteGate(actor, Remove);
    if denial.Some? {
      return denial.value;
    }
    if pk.None? {
      return MissingLookup;
    }
    var id := pk.value;
    var visible := Scope(actor, store.users);
    AdminScopeIsWholeTable(actor, store.users);
    if id !in visible {
      return NotFound;
    }
    store.users := store.users - {id};
    reply := Deleted;
  }
}
