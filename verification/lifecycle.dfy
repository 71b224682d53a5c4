/** Sequences of service calls: the invariants every run keeps, and the
    scenarios the controller tests walk through. */
module Lifecycle {
  import opened Common
  import opened UserRequests
  import opened UserEvents
  import opened UserStore
  import opened UserService

  /** One call to the service, with the clock reading it would take. */
  datatype Command =
    | Create(req: Request, now: Instant)
    | Update(id: UserId, req: Request)
    | Delete(id: UserId, now: Instant)
    | GetById(id: UserId)
    | GetAll

  /** The state a call leaves behind, whatever its result. */
  function Apply(st: State, c: Command): State
  {
    match c
    case Create(req, now) => CreateUser(st, req, now).state
    case Update(id, req) => UpdateUser(st, id, req).state
    case Delete(id, now) => DeleteUser(st, id, now).state
    case GetById(_) => st
    case GetAll => st
  }

  function Run(st: State, cmds: seq<Command>): State
    decreases |cmds|
  {
    if cmds == [] then st else Run(Apply(st, cmds[0]), cmds[1..])
  }

  /** One call keeps the invariant, only appends to the event log, and never
      moves the id counter back. */
  lemma ApplyKeepsInvariant(st: State, c: Command)
    requires ValidState(st)
    ensures ValidState(Apply(st, c))
    ensures st.events <= Apply(st, c).events
    ensures st.store.nextId <= Apply(st, c).store.nextId
  {
  }

  /** Any run from a consistent state keeps emails unique and ids within the
      issued range, publishes only create and delete events, never rewrites a
      published event, and never hands an id out twice. */
  lemma {:induction false} RunKeepsInvariant(st: State, cmds: seq<Command>)
    requires ValidState(st)
    ensures ValidState(Run(st, cmds))
    ensures st.events <= Run(st, cmds).events
    ensures st.store.nextId <= Run(st, cmds).store.nextId
    decreases |cmds|
  {
    if cmds != [] {
      ApplyKeepsInvariant(st, cmds[0]);
      RunKeepsInvariant(Apply(st, cmds[0]), cmds[1..]);
    }
  }

  /** The service starts consistent, so every reachable state is. */
  lemma ReachableStatesValid(cmds: seq<Command>)
    ensures ValidState(Run(Initial(), cmds))
  {
    RunKeepsInvariant(Initial(), cmds);
  }

  const ALICE: Request := Request("Alice", "alice@example.com", Some(28))
  const BOB: Request := Request("Bob", "bob@example.com", Some(32))

  /** The state after creating Alice at `t1` and then Bob at `t2`. */
  function AliceAndBob(t1: Instant, t2: Instant): State
  {
    CreateUser(CreateUser(Initial(), ALICE, t1).state, BOB, t2).state
  }

  /** Both creates succeed: Alice under id 1, Bob under id 2. */
  lemma AliceAndBobStored(t1: Instant, t2: Instant)
    ensures CreateUser(Initial(), ALICE, t1).result.Ok?
    ensures CreateUser(CreateUser(Initial(), ALICE, t1).state, BOB, t2).result.Ok?
    ensures AliceAndBob(t1, t2).store ==
              UserStore.Store(map[1 := User("Alice", "alice@example.com", Some(28), t1),
                                  2 := User("Bob", "bob@example.com", Some(32), t2)], 3)
  {
    var s1 := CreateUser(Initial(), ALICE, t1);
    assert s1.result.Ok?;
    assert s1.state.store.users == map[1 := User("Alice", "alice@example.com", Some(28), t1)];
    assert "alice@example.com"[0] != "bob@example.com"[0];
    assert CreateUser(s1.state, BOB, t2).result.Ok?;
  }

  /** Alice and Bob are created and listed, in that order. */
  lemma AliceBobScenario(t1: Instant, t2: Instant)
    ensures |GetAllUsers(AliceAndBob(t1, t2))| == 2
    ensures GetAllUsers(AliceAndBob(t1, t2))[0].name == "Alice"
    ensures GetAllUsers(AliceAndBob(t1, t2))[1].name == "Bob"
  {
    AliceAndBobStored(t1, t2);
    var users := AliceAndBob(t1, t2).store.users;
    assert Collect(users, 3, 3) == [];
    assert Collect(users, 2, 3) == [Row(2, users[2])];
    assert Collect(users, 1, 3) == [Row(1, users[1]), Row(2, users[2])];
  }

  /** After Alice and Bob, creating Eve with Alice's email is refused with
      that bare email, and nothing changes: the listing is the same. */
  lemma DuplicateEmailScenario(t1: Instant, t2: Instant, t3: Instant)
    ensures var eve := CreateUser(AliceAndBob(t1, t2), Request("Eve", "alice@example.com", Some(22)), t3);
            && eve.result == Err(EmailAlreadyExists("alice@example.com"))
            && GetAllUsers(eve.state) == GetAllUsers(AliceAndBob(t1, t2))
  {
    AliceAndBobStored(t1, t2);
    var users := AliceAndBob(t1, t2).store.users;
    assert EmailHeldByOther(users, "alice@example.com", None) by {
      assert 1 in users && users[1].email == "alice@example.com";
    }
  }

  /** A created user can be updated: the response carries the new name, email
      and age under the same id. */
  lemma UpdateScenario(t: Instant)
    ensures var created := CreateUser(Initial(), Request("Old Name", "old@example.com", Some(20)), t);
            var updated := UpdateUser(created.state, created.result.value.id, Request("New Name", "new@example.com", Some(21)));
            && created.result.Ok?
            && updated.result == Ok(UserResponse(created.result.value.id, "New Name", "new@example.com", Some(21), t))
  {
    var created := CreateUser(Initial(), Request("Old Name", "old@example.com", Some(20)), t);
    assert created.result.Ok?;
    assert created.state.store.users.Keys == {1};
  }

  /** A created user, once deleted, is gone from the listing, and the log holds
      its created event followed by its deleted event. */
  lemma DeleteScenario(t1: Instant, t2: Instant)
    ensures var created := CreateUser(Initial(), Request("To Delete", "delete@example.com", Some(40)), t1);
            var deleted := DeleteUser(created.state, created.result.value.id, t2);
            && created.result.Ok? && deleted.result.Ok?
            && GetAllUsers(deleted.state) == []
            && deleted.state.events ==
                 [CreatedEvent(1, "delete@example.com", "To Delete", t1),
                  DeletedEvent(1, "delete@example.com", "To Delete", t2)]
  {
    var created := CreateUser(Initial(), Request("To Delete", "delete@example.com", Some(40)), t1);
    assert created.result.Ok?;
    var deleted := DeleteUser(created.state, created.result.value.id, t2);
    assert deleted.state.store.users == map[];
    assert Collect(map[], 2, 2) == [];
    assert Collect(map[], 1, 2) == [];
  }
}
