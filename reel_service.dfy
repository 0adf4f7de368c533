/** `ReelService`: saving a reel for a user and deleting one of the user's
    reels. */
module ReelService {
  import opened Common
  import opened JavaText
  import opened Entities
  import opened Store
  import InstagramParsing

  const ReelMarker: string := "instagram.com/reel/"

  /** `validateReelUrl`: the URL must contain `instagram.com/reel/`. */
  function ValidateReelUrl(reelUrl: string): (r: Result<()>)
    ensures r.Ok? <==> exists i :: 0 <= i <= |reelUrl| && OccursAt(reelUrl, ReelMarker, i)
    ensures r.Err? ==> r.error == InvalidReelUrl
  {
    ContainsIff(reelUrl, ReelMarker);
    if Contains(reelUrl, ReelMarker) then Ok(()) else Err(InvalidReelUrl)
  }

  /** The links the app shares, `https://www.instagram.com/reel/...`, pass
      the check. */
  lemma {:induction false} SharedReelLinkIsValid(rest: string)
    ensures ValidateReelUrl(InstagramParsing.ReelPrefix + rest).Ok?
  {
    var url := InstagramParsing.ReelPrefix + rest;
    assert url[12..12 + |ReelMarker|] == ReelMarker;
    assert OccursAt(url, ReelMarker, 12);
  }

  /** `saveReel`: the user must exist, must not have saved this URL yet, and
      the URL must be a reel link, checked in that order; then the reel is
      stored with status `PROCESSING`. */
  method SaveReel(db: Database, userId: UserId, reelUrl: string) returns (r: Result<ReelId>)
    requires db.Valid()
    modifies db
    ensures db.Valid()
    ensures db.users == old(db.users) && db.places == old(db.places)
    ensures db.reelPlaces == old(db.reelPlaces) && db.stats == old(db.stats)
    ensures userId !in db.users ==> r == Err(UserNotFound)
    ensures userId in db.users && old(db.HasReel(userId, reelUrl)) ==> r == Err(ReelAlreadyExists)
    ensures userId in db.users && !old(db.HasReel(userId, reelUrl)) && ValidateReelUrl(reelUrl).Err? ==>
      r == Err(InvalidReelUrl)
    ensures userId in db.users && !old(db.HasReel(userId, reelUrl)) && ValidateReelUrl(reelUrl).Ok? ==> r.Ok?
    ensures r.Err? ==> db.reels == old(db.reels)
    ensures r.Ok? ==>
      && r.value !in old(db.reels)
      && db.reels.Keys == old(db.reels).Keys + {r.value}
      && (forall id :: id in old(db.reels) ==> db.reels[id] == old(db.reels[id]))
      && var reel := db.reels[r.value];
      && fresh(reel)
      && reel.user == userId && reel.reelUrl == reelUrl
      && reel.status == Processing && reel.thumbnailUrl == None && reel.caption == None
  {
    if userId !in db.users {
      return Err(UserNotFound);
    }
    if db.HasReel(userId, reelUrl) {
      return Err(ReelAlreadyExists);
    }
    var valid := ValidateReelUrl(reelUrl);
    if valid.Err? {
      return Err(valid.error);
    }
    var reel := new Reel(userId, reelUrl);
    var id := db.InsertReel(reel);
    r := Ok(id);
  }

  /** `deleteReel`: only the owner's reel is deleted, with its links. */
  method DeleteReel(db: Database, userId: UserId, reelId: ReelId) returns (r: Result<()>)
    requires db.Valid()
    modifies db
    ensures db.Valid()
    ensures db.users == old(db.users) && db.places == old(db.places) && db.stats == old(db.stats)
    ensures var owned := reelId in old(db.reels) && old(db.reels)[reelId].user == userId;
      && (owned ==>
            && r == Ok(())
            && db.reels == old(db.reels) - {reelId}
            && db.reelPlaces == Unlinked(old(db.reelPlaces), (link: ReelPlace) => link.reel == reelId))
      && (!owned ==>
            r == Err(ReelNotFound) && db.reels == old(db.reels) && db.reelPlaces == old(db.reelPlaces))
  {
    if reelId !in db.reels || db.reels[reelId].user != userId {
      return Err(ReelNotFound);
    }
    db.DeleteReel(reelId);
    r := Ok(());
  }
}
