/** `PlaceService`: listing and deleting a user's places, and counting how
    often the user opens a place in a map app. */
module PlaceService {
  import opened Common
  import opened Entities
  import opened Store

  /** `getMyPlaces`: the user must exist; the result is the ids of the
      user's places. */
  method GetMyPlaces(db: Database, userId: UserId) returns (r: Result<set<PlaceId>>)
    ensures userId !in db.users ==> r == Err(UserNotFound)
    ensures userId in db.users ==>
      r.Ok? && forall id :: id in r.value <==> id in db.places && db.places[id].user == userId
  {
    if userId !in db.users {
      return Err(UserNotFound);
    }
    r := Ok(set id | id in db.places && db.places[id].user == userId);
  }

  /** `deletePlace`: only the owner's place is deleted, with its images and
      links. */
  method DeletePlace(db: Database, userId: UserId, placeId: PlaceId) returns (r: Result<()>)
    requires db.Valid()
    modifies db
    ensures db.Valid()
    ensures db.users == old(db.users) && db.reels == old(db.reels) && db.stats == old(db.stats)
    ensures var owned := placeId in old(db.places) && old(db.places)[placeId].user == userId;
      && (owned ==>
            && r == Ok(())
            && db.places == old(db.places) - {placeId}
            && db.reelPlaces == Unlinked(old(db.reelPlaces), (link: ReelPlace) => link.place == placeId))
      && (!owned ==>
            r == Err(ErrorCode.PlaceNotFound) && db.places == old(db.places) && db.reelPlaces == old(db.reelPlaces))
  {
    if placeId !in db.places || db.places[placeId].user != userId {
      return Err(ErrorCode.PlaceNotFound);
    }
    db.DeletePlace(placeId);
    r := Ok(());
  }

  /** `recordMapOpen`: the place must be the user's; the user's stats row
      is created with count 0 when missing, then its count goes up by one.
      No other user's count changes. */
  method RecordMapOpen(db: Database, userId: UserId, placeId: PlaceId) returns (r: Result<()>)
    requires db.Valid()
    modifies db, db.stats.Values
    ensures db.Valid()
    ensures db.users == old(db.users) && db.reels == old(db.reels)
    ensures db.places == old(db.places) && db.reelPlaces == old(db.reelPlaces)
    ensures forall u :: u in old(db.stats) && u != userId ==>
      u in db.stats && db.stats[u] == old(db.stats[u]) && db.stats[u].mapOpenCount == old(db.stats[u].mapOpenCount)
    ensures !(placeId in db.places && db.places[placeId].user == userId) ==>
      && r == Err(ErrorCode.PlaceNotFound)
      && db.stats == old(db.stats)
      && (userId in db.stats ==> db.stats[userId].mapOpenCount == old(db.stats[userId].mapOpenCount))
    ensures placeId in db.places && db.places[placeId].user == userId ==>
      && r == Ok(())
      && userId in db.stats
      && db.stats.Keys == old(db.stats).Keys + {userId}
      && db.stats[userId].mapOpenCount
           == Int32Inc(if userId in old(db.stats) then old(db.stats[userId].mapOpenCount) else 0)
  {
    if placeId !in db.places || db.places[placeId].user != userId {
      return Err(ErrorCode.PlaceNotFound);
    }
    var stats: UserStats;
    if userId in db.stats {
      stats := db.stats[userId];
    } else {
      if userId !in db.users {
        return Err(UserNotFound);
      }
      stats := new UserStats(userId);
      db.InsertStats(stats);
    }
    stats.IncrementMapOpenCount();
    r := Ok(());
  }
}
