/** The persistence collaborator the service writes through: users keyed by id,
    an id counter, and a unique-email constraint checked when a row is written.
    A rejected write is a typed `Duplicate` outcome rather than an exception. */
module UserStore {
  import opened Common

  /** A stored user; its id is the key it is stored under. `createdAt` is set
      on the first save and never rewritten. */
  datatype User = User(name: string, email: string, age: Option<int>, createdAt: Instant)

  /** The table: users by id, and the id the next insert receives. */
  datatype Store = Store(users: map<UserId, User>, nextId: UserId)

  /** A row of a scan: a user with its id. */
  datatype Row = Row(id: UserId, user: User)

  /** Generated ids start at 1 and grow by one per insert. */
  const FIRST_ID: UserId := 1

  function Empty(): Store
  {
    Store(map[], FIRST_ID)
  }

  /** No two users share an email. */
  ghost predicate EmailsUnique(users: map<UserId, User>)
  {
    forall a, b :: a in users && b in users && users[a].email == users[b].email ==> a == b
  }

  /** Every id in use was handed out by the counter, and the unique-email
      constraint holds. */
  ghost predicate Valid(s: Store)
  {
    && FIRST_ID <= s.nextId
    && (forall k :: k in s.users ==> FIRST_ID <= k < s.nextId)
    && EmailsUnique(s.users)
  }

  /** Some user other than `self` holds `email` (`self` is `None` for an insert). */
  predicate EmailHeldByOther(users: map<UserId, User>, email: string, self: Option<UserId>)
  {
    exists k :: k in users && Some(k) != self && users[k].email == email
  }

  /** Outcome of a write: the saved user under its id and the new table, or a
      rejection by the unique-email constraint. */
  datatype SaveOutcome = Saved(id: UserId, user: User, store: Store) | Duplicate

  /** Saving a new entity: it receives the next id and creation time `now`,
      unless some user already holds its email. */
  function Insert(s: Store, name: string, email: string, age: Option<int>, now: Instant): (o: SaveOutcome)
    ensures o.Duplicate? <==> EmailHeldByOther(s.users, email, None)
    ensures o.Saved? ==>
              && o.id == s.nextId
              && o.user == User(name, email, age, now)
              && o.store == Store(s.users[o.id := o.user], s.nextId + 1)
    ensures o.Saved? && Valid(s) ==> o.id !in s.users && Valid(o.store)
  {
    if EmailHeldByOther(s.users, email, None) then Duplicate
    else
      var u := User(name, email, age, now);
      Saved(s.nextId, u, Store(s.users[s.nextId := u], s.nextId + 1))
  }

  /** Saving an entity that already has an id: its row is rewritten, unless a
      different user holds its email. */
  function Overwrite(s: Store, id: UserId, u: User): (o: SaveOutcome)
    requires id in s.users
    ensures o.Duplicate? <==> EmailHeldByOther(s.users, u.email, Some(id))
    ensures o.Saved? ==> o.id == id && o.user == u && o.store == Store(s.users[id := u], s.nextId)
    ensures o.Saved? && Valid(s) ==> Valid(o.store)
  {
    if EmailHeldByOther(s.users, u.email, Some(id)) then Duplicate
    else Saved(id, u, Store(s.users[id := u], s.nextId))
  }

  function FindById(s: Store, id: UserId): (r: Option<User>)
    ensures r.Some? <==> id in s.users
    ensures r.Some? ==> r.value == s.users[id]
  {
    if id in s.users then Some(s.users[id]) else None
  }

  function DeleteById(s: Store, id: UserId): (s': Store)
    ensures s'.users.Keys == s.users.Keys - {id}
    ensures forall k :: k in s'.users ==> s'.users[k] == s.users[k]
    ensures s'.nextId == s.nextId
    ensures Valid(s) ==> Valid(s')
  {
    Store(s.users - {id}, s.nextId)
  }

  /** The rows whose ids lie in [lo, hi), in ascending id order. */
  function Collect(users: map<UserId, User>, lo: int, hi: int): seq<Row>
    decreases hi - lo
  {
    if hi <= lo then []
    else (if lo in users then [Row(lo, users[lo])] else []) + Collect(users, lo + 1, hi)
  }

  ghost function KeysIn(users: map<UserId, User>, lo: int, hi: int): set<UserId>
  {
    set k | k in users && lo <= k < hi
  }

  /** Exactly the users whose ids lie in [lo, hi) are collected. */
  lemma {:induction false} CollectMembers(users: map<UserId, User>, lo: int, hi: int)
    ensures forall r :: r in Collect(users, lo, hi) ==> lo <= r.id < hi && r.id in users && users[r.id] == r.user
    ensures forall k :: k in users && lo <= k < hi ==> Row(k, users[k]) in Collect(users, lo, hi)
    decreases hi - lo
  {
    if lo < hi {
      CollectMembers(users, lo + 1, hi);
    }
  }

  /** Ids strictly increase along `rows`. */
  ghost predicate AscendingIds(rows: seq<Row>)
  {
    forall i, j :: 0 <= i < j < |rows| ==> rows[i].id < rows[j].id
  }

  /** The collected rows come in strictly ascending id order. */
  lemma {:induction false} CollectAscending(users: map<UserId, User>, lo: int, hi: int)
    ensures AscendingIds(Collect(users, lo, hi))
    decreases hi - lo
  {
    if lo < hi {
      CollectAscending(users, lo + 1, hi);
      CollectMembers(users, lo + 1, hi);
      var rest := Collect(users, lo + 1, hi);
      var head := if lo in users then [Row(lo, users[lo])] else [];
      var c := Collect(users, lo, hi);
      assert c == head + rest;
      forall i, j | 0 <= i < j < |c| ensures c[i].id < c[j].id {
        assert c[j] == rest[j - |head|];
        assert rest[j - |head|] in rest;
        if |head| <= i {
          assert c[i] == rest[i - |head|];
        }
      }
    }
  }

  /** One row is collected per id in [lo, hi). */
  lemma {:induction false} CollectLength(users: map<UserId, User>, lo: int, hi: int)
    ensures |Collect(users, lo, hi)| == |KeysIn(users, lo, hi)|
    decreases hi - lo
  {
    if lo < hi {
      CollectLength(users, lo + 1, hi);
      var here := if lo in users then {lo} else {};
      assert KeysIn(users, lo, hi) == here + KeysIn(users, lo + 1, hi);
      assert here !! KeysIn(users, lo + 1, hi);
    } else {
      assert KeysIn(users, lo, hi) == {};
    }
  }

  /** A full scan. Rows come in ascending id order, which is the order they
      were created in since ids are handed out increasingly. */
  function FindAll(s: Store): seq<Row>
  {
    Collect(s.users, FIRST_ID, s.nextId)
  }

  /** A full scan lists every stored user exactly once, in creation order. */
  lemma FindAllSpec(s: Store)
    requires Valid(s)
    ensures |FindAll(s)| == |s.users|
    ensures forall r :: r in FindAll(s) ==> r.id in s.users && s.users[r.id] == r.user
    ensures forall k :: k in s.users ==> Row(k, s.users[k]) in FindAll(s)
    ensures AscendingIds(FindAll(s))
  {
    CollectMembers(s.users, FIRST_ID, s.nextId);
    CollectAscending(s.users, FIRST_ID, s.nextId);
    CollectLength(s.users, FIRST_ID, s.nextId);
    assert KeysIn(s.users, FIRST_ID, s.nextId) == s.users.Keys;
  }
}
