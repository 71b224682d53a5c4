/** The notification published on the user-events topic. */
module UserEvents {
  import opened Common

  const USER_CREATED: string := "USER_CREATED"
  const USER_DELETED: string := "USER_DELETED"

  /** A user event: its type, the user's id, email and name, and when it was built. */
  datatype UserEvent = UserEvent(
    eventType: string,
    userId: UserId,
    userEmail: string,
    userName: string,
    eventTime: Instant)

  /** An event one of the two factories can build. */
  predicate IsLifecycleEvent(e: UserEvent)
  {
    e.eventType == USER_CREATED || e.eventType == USER_DELETED
  }

  /** The event announcing a new user; `now` is the clock reading at construction. */
  function CreatedEvent(userId: UserId, userEmail: string, userName: string, now: Instant): (e: UserEvent)
    ensures e.eventType == USER_CREATED
    ensures e.userId == userId && e.userEmail == userEmail && e.userName == userName
    ensures e.eventTime == now
  {
    UserEvent(USER_CREATED, userId, userEmail, userName, now)
  }

  /** The event announcing a removed user. */
  function DeletedEvent(userId: UserId, userEmail: string, userName: string, now: Instant): (e: UserEvent)
    ensures e.eventType == USER_DELETED
    ensures e.userId == userId && e.userEmail == userEmail && e.userName == userName
    ensures e.eventTime == now
  {
    UserEvent(USER_DELETED, userId, userEmail, userName, now)
  }

  /** On the same arguments the two factories agree on everything but the event
      type (and the clock reading), and their types tell them apart. */
  lemma FactoriesDifferOnlyInType(userId: UserId, userEmail: string, userName: string, t1: Instant, t2: Instant)
    ensures CreatedEvent(userId, userEmail, userName, t1).(eventType := USER_DELETED, eventTime := t2)
            == DeletedEvent(userId, userEmail, userName, t2)
    ensures CreatedEvent(userId, userEmail, userName, t1) != DeletedEvent(userId, userEmail, userName, t2)
    ensures IsLifecycleEvent(CreatedEvent(userId, userEmail, userName, t1))
    ensures IsLifecycleEvent(DeletedEvent(userId, userEmail, userName, t2))
  {
    assert USER_CREATED[5] != USER_DELETED[5];
  }

  /** Conversely, a lifecycle event is what one of the factories builds from
      the event's own fields: the created factory exactly when its type is
      `USER_CREATED`, the deleted factory exactly when it is `USER_DELETED`. */
  lemma LifecycleEventFromFactory(e: UserEvent)
    requires IsLifecycleEvent(e)
    ensures e.eventType == USER_CREATED <==> e == CreatedEvent(e.userId, e.userEmail, e.userName, e.eventTime)
    ensures e.eventType == USER_DELETED <==> e == DeletedEvent(e.userId, e.userEmail, e.userName, e.eventTime)
  {
    assert USER_CREATED[5] != USER_DELETED[5];
  }
}
