# User lifecycle service — a Dafny model

This project models the core of a small user-management service: the user
lifecycle service (`UserServiceImpl`), the validation constraints on the
create/update request (`UserRequestDto`), and the two factories of the user event
(`UserEvent`). The model is sequential and functional. The service's world is a
`State`: a store of users and the log of events published so far. The store maps
each id to `User(name, email, age, createdAt)` and keeps a counter for the next
generated id. Every operation is a pure function from a state and its arguments to
a `Result` and a new state.

Files:
- `common.dfy` (`Common`): `Option`, `UserId`, and the opaque clock reading `Instant`.
- `requests.dfy` (`UserRequests`): the request, the seven field constraints with their messages, and the validity predicate.
- `events.dfy` (`UserEvents`): the event record and its two factories.
- `store.dfy` (`UserStore`): the abstract repository. A save that hits the unique-email constraint returns a typed `Duplicate`; a full scan returns rows in ascending id order.
- `service.dfy` (`UserService`): create, update, delete, get-by-id, get-all and the response projection.
- `lifecycle.dfy` (`Lifecycle`): runs of arbitrary command sequences, and the scenarios of the controller tests.

On these points the model follows the code:
- The service never checks whether an email is taken before writing. Uniqueness is enforced only when the store writes (`UserServiceImpl.java:37`, `:69`), and the service turns the store's rejection into `EmailAlreadyExists`.
- Updating an absent id does not fail with not-found. The not-found exception is thrown inside the `try` and caught by the generic `catch (Exception)`, so the caller sees `Failed("Failed to update user", UserNotFound(id))`. The controller's API documentation promises a 404 for this case (`UserController.java:174-183`). Delete and get-by-id report `UserNotFound(id)` directly.
- `EmailAlreadyExists` is built with the `(message, cause)` constructor and passed the bare email. Its message is therefore the email itself, not "Email already exists: …" as the controller's API documentation shows (`UserController.java:164-173`). The model's error carries the request's email as its message.
- Update publishes no event. Create and delete each publish exactly one.

## Model

| member | source | states |
|---|---|---|
| UserService.CreateUser | src/main/java/com/example/userservice/service/UserServiceImpl.java:29-55 | Create fails iff some stored user already holds the request's email. The failure is `EmailAlreadyExists(request email)` and leaves state and event log unchanged. On success the user is stored under the counter's id, which was unused, with the request's name, email and age. The response is that row's projection, and exactly one `USER_CREATED` event with the saved id, email and name is appended. The consistency invariant (unique emails, ids in the issued range, only lifecycle events) is preserved. |
| UserService.UpdateUser | src/main/java/com/example/userservice/service/UserServiceImpl.java:57-84 | An absent id yields `Failed("Failed to update user", UserNotFound(id))` with no state change. For a present id, update fails iff a different user holds the request's email; it then fails with `EmailAlreadyExists(request email)` and the target is untouched. On success only name, email and age are rewritten: the id, `createdAt`, the other users, the id counter and the event log stay unchanged. The invariant is preserved. |
| UserService.DeleteUser | src/main/java/com/example/userservice/service/UserServiceImpl.java:86-96 | An absent id fails with `UserNotFound(id)` and changes nothing. For a present id, exactly that user is removed, the counter is kept, and one `USER_DELETED` event is appended carrying the id and the email and name read before the removal. The invariant is preserved. |
| UserService.GetUserById | src/main/java/com/example/userservice/service/UserServiceImpl.java:98-104 | Returns the projection of the user stored under the id when there is one, and `UserNotFound(id)` otherwise. |
| UserService.GetAllUsersSpec | src/main/java/com/example/userservice/service/UserServiceImpl.java:106-113 | The listing has one projection per stored user, each the projection of a stored user under its own id. Every stored user is included, in ascending id (creation) order. |
| UserService.ResponseKeepsUser | src/main/java/com/example/userservice/service/UserServiceImpl.java:115-123 | The response projection keeps the id and every field of the user, so the stored row can be rebuilt from it and distinct rows have distinct projections. |
| UserService.CreateThenGet | src/test/java/com/example/userservice/UserControllerTest.java:68-78 | After a successful create, get-by-id with the returned id gives the same response, with the request's name, email and age. |
| UserService.UpdateOwnEmailNeverConflicts | src/main/java/com/example/userservice/service/UserServiceImpl.java:63-70 | In a consistent state, updating a user with its own current email always succeeds. |
| UserService.NeverIssuedIdNotFound | src/main/java/com/example/userservice/service/UserServiceImpl.java:100-102 | In a consistent state, get-by-id on an id the counter never handed out fails with `UserNotFound`. |
| UserService.DeleteThenGone | src/test/java/com/example/userservice/UserControllerTest.java:95-105 | After deleting an existing user, get-by-id on that id fails with not-found, no entry of the listing has that id, and the listing is one entry shorter. |
| UserStore.Insert | src/main/java/com/example/userservice/service/UserServiceImpl.java:32-37 | Saving a new user is rejected as `Duplicate` iff some stored user holds its email. Otherwise the user gets the counter's id, which was unused, and creation time `now`; the counter advances by one and the store invariant is kept. |
| UserStore.Overwrite | src/main/java/com/example/userservice/service/UserServiceImpl.java:65-69 | Saving an existing user is rejected as `Duplicate` iff a different user holds its email. Otherwise exactly that row is rewritten and the store invariant is kept. |
| UserStore.FindById | src/main/java/com/example/userservice/service/UserServiceImpl.java:88-89 | Lookup finds a user iff the id is stored, and then returns that user. |
| UserStore.DeleteById | src/main/java/com/example/userservice/service/UserServiceImpl.java:93 | Removal drops exactly the given id, leaves every other user and the counter as they were, and keeps the store invariant. |
| UserStore.FindAllSpec | src/main/java/com/example/userservice/service/UserServiceImpl.java:109-112 | A full scan of a consistent store lists each stored user exactly once under its id, in strictly ascending id order. |
| Lifecycle.RunKeepsInvariant | src/main/java/com/example/userservice/service/UserServiceImpl.java:29-113 | Any sequence of calls from a consistent state keeps the invariant: emails stay unique, ids stay within the issued range, and only create and delete events are published. The earlier event log is a prefix of the later one, and the id counter never decreases, so ids are never reused. |
| Lifecycle.ReachableStatesValid | src/main/java/com/example/userservice/service/UserServiceImpl.java:24-27 | Every state reachable from the empty store and empty log is consistent. |
| Lifecycle.AliceAndBobStored | src/test/java/com/example/userservice/UserControllerTest.java:42-43 | Creating Alice and then Bob from the empty store both succeed, storing Alice under id 1 and Bob under id 2 with their request fields and creation times. |
| Lifecycle.AliceBobScenario | src/test/java/com/example/userservice/UserControllerTest.java:40-49 | After creating Alice and Bob, the listing has exactly two entries, Alice then Bob. |
| Lifecycle.DuplicateEmailScenario | src/main/java/com/example/userservice/service/UserServiceImpl.java:48-50 | After Alice and Bob, a create reusing Alice's email fails with `EmailAlreadyExists("alice@example.com")`, the bare email, and the listing is unchanged. |
| Lifecycle.UpdateScenario | src/test/java/com/example/userservice/UserControllerTest.java:80-93 | Updating a freshly created user returns the new name, email and age under the same id and creation time. |
| Lifecycle.DeleteScenario | src/test/java/com/example/userservice/UserControllerTest.java:95-105 | Creating then deleting a user leaves an empty listing. The log then holds that user's created event followed by its deleted event. |
| UserRequests.ValidRequestMeaning | src/main/java/com/example/userservice/dto/UserRequestDto.java:16-38 | A request has no constraint violation iff its name is non-blank and 2 to 50 characters long, its email is non-blank and accepted by the email checker, and its age is present and within [1, 150]. |
| UserRequests.RejectedRequests | src/test/java/com/example/userservice/UserControllerTest.java:107-125 | For any email checker that rejects non-empty strings without '@', "invalid-email" fails the format constraint and is reported as "Email should be valid". Age 0 fails the minimum-age constraint and is reported as "Age must be at least 1". Neither request is valid. |
| UserRequests.AccessorsRoundTrip | src/main/java/com/example/userservice/dto/UserRequestDto.java:43-50 | The constructor stores name, email and age unchanged: rebuilding a request from its getters gives it back, and setting all three fields gives the constructed request. |
| UserRequests.SetName | src/main/java/com/example/userservice/dto/UserRequestDto.java:52-54 | Setting the name replaces the name and keeps email and age. |
| UserRequests.SetEmail | src/main/java/com/example/userservice/dto/UserRequestDto.java:60-62 | Setting the email replaces the email and keeps name and age. |
| UserRequests.SetAge | src/main/java/com/example/userservice/dto/UserRequestDto.java:68-70 | Setting the age replaces the age and keeps name and email. |
| UserEvents.CreatedEvent | src/main/java/com/example/userservice/event/UserEvent.java:51-59 | The created-event factory yields type `USER_CREATED` and carries id, email and name unchanged, stamped with the given clock reading. |
| UserEvents.DeletedEvent | src/main/java/com/example/userservice/event/UserEvent.java:61-69 | The deleted-event factory yields type `USER_DELETED` and carries id, email and name unchanged, stamped with the given clock reading. |
| UserEvents.LifecycleEventFromFactory | src/main/java/com/example/userservice/event/UserEvent.java:51-69 | Every event with one of the two lifecycle types is exactly what the matching factory builds from the event's id, email, name and time, and the type alone tells which factory. |
| UserEvents.FactoriesDifferOnlyInType | src/main/java/com/example/userservice/event/UserEvent.java:51-69 | On the same arguments the two factories' events are equal once the type and time are aligned. Their types differ, and both are lifecycle events. |

## Left out

- HTTP routing, status codes, OpenAPI metadata, the controller's stub lookup by email and its constant health and broker-status endpoints: framework plumbing outside the service.
- The Kafka producer: publishing is an append to the event log that never fails, because the producer swallows every send failure.
- Wall-clock values: they are an `Instant` parameter. A create uses one reading for both the stored `createdAt` and the event time, where the service takes two readings.
- The user entity and the repository are modelled abstractly. Ids start at 1 and increase by one per successful insert; a rejected insert does not consume an id. `createdAt` is set at insert and never rewritten. The store's scan order is taken to be ascending id, which is the creation order the listing test expects.
- Transaction semantics: read-only transactions, rollback, and flush timing are left out. In particular, the update's write is taken to happen at the `save` call, not at commit. Create's insert is likewise taken to happen at its `save` call, so a duplicate is detected before the created event is published; an id generator that defers the insert to commit would publish the event first and let the failure escape without becoming `EmailAlreadyExists`. Concurrent requests and the check-then-write race are also left out.
- `createUser`'s generic `catch (Exception)`: the abstract store has no unexplained failures, so the wrapped "Failed to create user" error never arises and is not modelled.
- Null strings: names and emails are non-null strings. A null name or email is rejected by the not-blank constraint just as a blank one is, so validity is unaffected. The service's behaviour on null fields, such as a store rejection re-labelled as `EmailAlreadyExists`, is not modelled.
- Email syntax: the `@Email` check belongs to a validator library outside this model, so it is a parameter. It is constrained only by the fact that it rejects every non-empty string without '@'.
- Name length is counted in Unicode scalar values, where the source counts UTF-16 code units; the two differ only for characters outside the Basic Multilingual Plane.
- The not-found message text ("User not found with id: " followed by the id) is represented by the id alone.
- `UserService.GetUserById`: reads return only a result and no state, so "reads change nothing" holds by construction rather than by a stated contract.
