/** The database as a mutable object: one sequence per table, in insertion order,
    and one id sequence per table. Services that insert, update or delete rows
    change its fields; services that only read take `State()`. */
module Persistence {
  import opened Common
  import opened Schema

  class Database {
    var users: seq<User>
    var pets: seq<Pet>
    var petOwners: seq<PetOwner>
    var applications: seq<InsulinApplication>
    var pushTokens: seq<PushToken>
    var sentNotifications: seq<SentNotification>

    /** The next value of each table's id sequence. */
    var nextUserId: Id
    var nextPetId: Id
    var nextApplicationId: Id
    var nextPushTokenId: Id
    var nextSentNotificationId: Id

    /** The tables as a value. */
    function State(): Tables
      reads this
    {
      Tables(users, pets, petOwners, applications, pushTokens, sentNotifications)
    }

    /** The schema's constraints hold and every id sequence is past the ids it has handed out. */
    ghost predicate Valid()
      reads this
    {
      && Consistent(State())
      && nextUserId >= 1 && nextPetId >= 1 && nextApplicationId >= 1
      && nextPushTokenId >= 1 && nextSentNotificationId >= 1
      && (forall u :: u in users ==> u.id < nextUserId)
      && (forall p :: p in pets ==> p.id < nextPetId)
      && (forall a :: a in applications ==> a.id < nextApplicationId)
      && (forall k :: k in pushTokens ==> k.id < nextPushTokenId)
      && (forall s :: s in sentNotifications ==> s.id < nextSentNotificationId)
    }

    /** An empty database. */
    constructor ()
      ensures Valid()
      ensures State() == Tables([], [], [], [], [], [])
    {
      users, pets, petOwners, applications, pushTokens, sentNotifications := [], [], [], [], [], [];
      nextUserId, nextPetId, nextApplicationId, nextPushTokenId, nextSentNotificationId := 1, 1, 1, 1, 1;
    }
  }
}
