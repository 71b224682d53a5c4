/** The user lifecycle service: create, read, update and delete over the store,
    with one event published on each successful create and delete. */
module UserService {
  import opened Common
  import opened UserRequests
  import opened UserEvents
  import opened UserStore

  /** The failures a caller can observe.
      - `EmailAlreadyExists(message)`: the store rejected a write; the message is
        the request's email itself, with no prefix.
      - `UserNotFound(id)`: no row under `id`.
      - `Failed(message, cause)`: any other failure, wrapped with a fixed message. */
  datatype ServiceError =
    | EmailAlreadyExists(message: string)
    | UserNotFound(id: UserId)
    | Failed(message: string, cause: ServiceError)

  const UPDATE_FAILED: string := "Failed to update user"

  datatype Result<T> = Ok(value: T) | Err(error: ServiceError)

  /** The read projection of a stored user. */
  datatype UserResponse = UserResponse(id: UserId, name: string, email: string, age: Option<int>, createdAt: Instant)

  /** The service's world: the table and everything published so far. Publishing
      never fails as far as the service can tell, so it is an append. */
  datatype State = State(store: UserStore.Store, events: seq<UserEvent>)

  /** An operation's result together with the state it leaves behind. */
  datatype Step<T> = Step(result: Result<T>, state: State)

  function Initial(): State
  {
    State(UserStore.Empty(), [])
  }

  /** The table is consistent and only create and delete events were published. */
  ghost predicate ValidState(st: State)
  {
    && UserStore.Valid(st.store)
    && forall i :: 0 <= i < |st.events| ==> IsLifecycleEvent(st.events[i])
  }

  function ToResponse(id: UserId, u: User): UserResponse
  {
    UserResponse(id, u.name, u.email, u.age, u.createdAt)
  }

  /** The projection keeps the id and every field of the user: the stored row
      can be rebuilt from it, so distinct rows have distinct projections. */
  lemma ResponseKeepsUser(id: UserId, u: User, id': UserId, v: User)
    ensures var p := ToResponse(id, u);
            p.id == id && User(p.name, p.email, p.age, p.createdAt) == u
    ensures ToResponse(id, u) == ToResponse(id', v) ==> id == id' && u == v
  {
  }

  /** Create: insert a user built from the request; on success publish one
      created event and return the saved row's projection. There is no check
      for an existing email before the write; the store's rejection becomes
      `EmailAlreadyExists` carrying the request's email. */
  function CreateUser(st: State, req: Request, now: Instant): (r: Step<UserResponse>)
    ensures r.result.Err? <==> EmailHeldByOther(st.store.users, req.email, None)
    ensures r.result.Err? ==> r.result.error == EmailAlreadyExists(req.email) && r.state == st
    ensures r.result.Ok? ==>
              var id := r.result.value.id;
              && id == st.store.nextId
              && r.state.store == UserStore.Store(st.store.users[id := User(req.name, req.email, req.age, now)], id + 1)
              && r.result.value == ToResponse(id, r.state.store.users[id])
              && r.state.events == st.events + [CreatedEvent(id, req.email, req.name, now)]
    ensures ValidState(st) && r.result.Ok? ==> r.result.value.id !in st.store.users
    ensures ValidState(st) ==> ValidState(r.state)
  {
    match UserStore.Insert(st.store, req.name, req.email, req.age, now)
    case Duplicate =>
      Step(Err(EmailAlreadyExists(req.email)), st)
    case Saved(newId, saved, store') =>
      var event := CreatedEvent(newId, saved.email, saved.name, now);
      Step(Ok(ToResponse(newId, saved)), State(store', st.events + [event]))
  }

  /** Update: load the row, overwrite its name, email and age, save it. A missing
      row is reported inside the wrapped generic failure, not as not-found; a
      store rejection becomes `EmailAlreadyExists` with the request's email. No
      event is published. */
  function UpdateUser(st: State, id: UserId, req: Request): (r: Step<UserResponse>)
    ensures id !in st.store.users ==>
              r.result == Err(Failed(UPDATE_FAILED, UserNotFound(id))) && r.state == st
    ensures id in st.store.users ==>
              (r.result.Err? <==> EmailHeldByOther(st.store.users, req.email, Some(id)))
    ensures id in st.store.users && r.result.Err? ==>
              r.result.error == EmailAlreadyExists(req.email) && r.state == st
    ensures r.result.Ok? ==>
              var current := st.store.users[id];
              var edited := User(req.name, req.email, req.age, current.createdAt);
              && id in st.store.users
              && r.state.store == UserStore.Store(st.store.users[id := edited], st.store.nextId)
              && r.state.events == st.events
              && r.result.value == ToResponse(id, edited)
    ensures ValidState(st) ==> ValidState(r.state)
  {
    match UserStore.FindById(st.store, id)
    case None =>
      Step(Err(Failed(UPDATE_FAILED, UserNotFound(id))), st)
    case Some(user) =>
      var edited := user.(name := req.name, email := req.email, age := req.age);
      match UserStore.Overwrite(st.store, id, edited)
      case Duplicate =>
        Step(Err(EmailAlreadyExists(req.email)), st)
      case Saved(savedId, updated, store') =>
        Step(Ok(ToResponse(savedId, updated)), State(store', st.events))
  }

  /** Delete: load the row (not-found if absent), remove it, then publish one
      deleted event carrying the email and name read before the removal. */
  function DeleteUser(st: State, id: UserId, now: Instant): (r: Step<()>)
    ensures id !in st.store.users ==> r.result == Err(UserNotFound(id)) && r.state == st
    ensures id in st.store.users ==>
              var gone := st.store.users[id];
              && r.result.Ok?
              && r.state.store == UserStore.Store(st.store.users - {id}, st.store.nextId)
              && r.state.events == st.events + [DeletedEvent(id, gone.email, gone.name, now)]
    ensures ValidState(st) ==> ValidState(r.state)
  {
    match UserStore.FindById(st.store, id)
    case None =>
      Step(Err(UserNotFound(id)), st)
    case Some(user) =>
      var store' := UserStore.DeleteById(st.store, id);
      Step(Ok(()), State(store', st.events + [DeletedEvent(id, user.email, user.name, now)]))
  }

  /** Read one user. */
  function GetUserById(st: State, id: UserId): (r: Result<UserResponse>)
    ensures r.Ok? <==> id in st.store.users
    ensures r.Ok? ==> r.value == ToResponse(id, st.store.users[id])
    ensures r.Err? ==> r.error == UserNotFound(id)
  {
    match UserStore.FindById(st.store, id)
    case None => Err(UserNotFound(id))
    case Some(user) => Ok(ToResponse(id, user))
  }

  /** Read every user: the projection of each row of a full scan. */
  function GetAllUsers(st: State): seq<UserResponse>
  {
    var rows := UserStore.FindAll(st.store);
    seq(|rows|, i requires 0 <= i < |rows| => ToResponse(rows[i].id, rows[i].user))
  }

  /** Reading every user lists one projection per stored user, each of a
      stored user under its own id, every stored user included, in creation
      (ascending id) order. */
  lemma GetAllUsersSpec(st: State)
    requires ValidState(st)
    ensures |GetAllUsers(st)| == |st.store.users|
    ensures forall p :: p in GetAllUsers(st) ==> p.id in st.store.users && p == ToResponse(p.id, st.store.users[p.id])
    ensures forall k :: k in st.store.users ==> ToResponse(k, st.store.users[k]) in GetAllUsers(st)
    ensures forall i, j :: 0 <= i < j < |GetAllUsers(st)| ==> GetAllUsers(st)[i].id < GetAllUsers(st)[j].id
  {
    var rows := UserStore.FindAll(st.store);
    var all := GetAllUsers(st);
    UserStore.FindAllSpec(st.store);
    forall p | p in all ensures p.id in st.store.users && p == ToResponse(p.id, st.store.users[p.id]) {
      var i :| 0 <= i < |all| && all[i] == p;
      assert rows[i] in rows;
    }
    forall k | k in st.store.users ensures ToResponse(k, st.store.users[k]) in all {
      var row := Row(k, st.store.users[k]);
      assert row in rows;
      var i :| 0 <= i < |rows| && rows[i] == row;
      assert all[i] == ToResponse(k, st.store.users[k]);
    }
    forall i, j | 0 <= i < j < |all| ensures all[i].id < all[j].id {
      assert all[i].id == rows[i].id && all[j].id == rows[j].id;
    }
  }

  /** A user just created can be read back under the returned id, with the
      request's name, email and age. */
  lemma CreateThenGet(st: State, req: Request, now: Instant)
    requires CreateUser(st, req, now).result.Ok?
    ensures var r := CreateUser(st, req, now);
            && GetUserById(r.state, r.result.value.id) == r.result
            && r.result.value.name == req.name
            && r.result.value.email == req.email
            && r.result.value.age == req.age
  {
  }

  /** Re-submitting a user's own current email never collides: with the
      table consistent, the only holder of that email is the user itself. */
  lemma UpdateOwnEmailNeverConflicts(st: State, id: UserId, req: Request)
    requires ValidState(st)
    requires id in st.store.users && req.email == st.store.users[id].email
    ensures UpdateUser(st, id, req).result.Ok?
  {
  }

  /** Reading an id the store never handed out fails with not-found. */
  lemma NeverIssuedIdNotFound(st: State, id: UserId)
    requires ValidState(st)
    requires id < FIRST_ID || st.store.nextId <= id
    ensures GetUserById(st, id) == Err(UserNotFound(id))
  {
  }

  /** After a delete the user can no longer be read, by id or in the full
      listing, and the listing is one entry shorter. */
  lemma DeleteThenGone(st: State, id: UserId, now: Instant)
    requires ValidState(st)
    requires id in st.store.users
    ensures var after := DeleteUser(st, id, now).state;
            && GetUserById(after, id) == Err(UserNotFound(id))
            && (forall p :: p in GetAllUsers(after) ==> p.id != id)
            && |GetAllUsers(after)| == |GetAllUsers(st)| - 1
  {
    var after := DeleteUser(st, id, now).state;
    GetAllUsersSpec(st);
    GetAllUsersSpec(after);
    assert after.store.users.Keys == st.store.users.Keys - {id};
  }
}
