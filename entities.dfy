/** The JPA entities whose fields the services update in place: `Reel`,
    `Place`, `PlaceImage` and `UserStats`, plus the `ReelPlace` link, which
    is never changed after it is built. */
module Entities {
  import opened Common

  /** `Reel`: a saved Instagram reel and where its processing stands. The
      owner and the URL are never reassigned after construction. */
  class Reel {
    const user: UserId
    const reelUrl: string
    var thumbnailUrl: Option<string>
    var caption: Option<string>
    var status: ReelStatus

    /** `Reel(user, reelUrl)`: no metadata yet, status `PROCESSING`. */
    constructor (user: UserId, reelUrl: string)
      ensures this.user == user && this.reelUrl == reelUrl
      ensures thumbnailUrl == None && caption == None
      ensures status == Processing
    {
      this.user := user;
      this.reelUrl := reelUrl;
      thumbnailUrl := None;
      caption := None;
      status := Processing;
    }

    /** `updateMetadata`: sets the thumbnail URL and the caption; the
        status is left as it is. */
    method UpdateMetadata(thumbnailUrl: string, caption: string)
      modifies this
      ensures this.thumbnailUrl == Some(thumbnailUrl) && this.caption == Some(caption)
      ensures status == old(status)
    {
      this.thumbnailUrl := Some(thumbnailUrl);
      this.caption := Some(caption);
    }

    /** `updateStatus`: any status may follow any other. */
    method UpdateStatus(status: ReelStatus)
      modifies this
      ensures this.status == status
      ensures thumbnailUrl == old(thumbnailUrl) && caption == old(caption)
    {
      this.status := status;
    }
  }

  /** `PlaceImage`: one photo of a place and its position in the gallery. */
  class PlaceImage {
    var place: Place?
    const imageUrl: string
    const sortOrder: int

    constructor (place: Place?, imageUrl: string, sortOrder: int)
      ensures this.place == place && this.imageUrl == imageUrl && this.sortOrder == sortOrder
    {
      this.place := place;
      this.imageUrl := imageUrl;
      this.sortOrder := sortOrder;
    }

    /** `setPlace`: the back-reference to the owning place. */
    method SetPlace(place: Place?)
      modifies this
      ensures this.place == place
    {
      this.place := place;
    }
  }

  /** `Place`: a place the user has collected, with its ordered photos.
      `googlePlaceId` is the provider's identifier of the place. */
  class Place {
    const user: UserId
    const googlePlaceId: string
    const name: string
    const address: string
    const rating: Option<Rating>
    const reviewCount: Option<int>
    var images: seq<PlaceImage>

    /** `Place(user, googlePlaceId, name, address, rating, reviewCount)`:
        the fields as given and no images. */
    constructor (user: UserId, googlePlaceId: string, name: string, address: string,
                 rating: Option<Rating>, reviewCount: Option<int>)
      ensures this.user == user && this.googlePlaceId == googlePlaceId
      ensures this.name == name && this.address == address
      ensures this.rating == rating && this.reviewCount == reviewCount
      ensures images == []
    {
      this.user := user;
      this.googlePlaceId := googlePlaceId;
      this.name := name;
      this.address := address;
      this.rating := rating;
      this.reviewCount := reviewCount;
      images := [];
    }

    /** `addImage`: the image goes to the end of the list and points back
        at this place. */
    method AddImage(image: PlaceImage)
      modifies this, image
      ensures images == old(images) + [image]
      ensures image.place == this
    {
      images := images + [image];
      image.SetPlace(this);
    }
  }

  /** `ReelPlace`: the link between a reel and a place found in it. */
  datatype ReelPlace = ReelPlace(reel: ReelId, place: PlaceId)

  /** `UserStats`: per-user counters, keyed by the user's id. */
  class UserStats {
    const userId: UserId
    var mapOpenCount: Int32

    /** `UserStats(user)`: the count starts at 0. */
    constructor (userId: UserId)
      ensures this.userId == userId && mapOpenCount == 0
    {
      this.userId := userId;
      mapOpenCount := 0;
    }

    /** `incrementMapOpenCount`: `mapOpenCount++` on a Java `Integer`. */
    method IncrementMapOpenCount()
      modifies this
      ensures mapOpenCount == Int32Inc(old(mapOpenCount))
    {
      mapOpenCount := Int32Inc(mapOpenCount);
    }
  }

  /** What the notification service is told when places were found. */
  datatype Notification = Notification(userId: UserId, reelId: ReelId, placeCount: nat)

  /** The notification service, as the record of what it was asked to send. */
  class Notifier {
    var sent: seq<Notification>

    constructor ()
      ensures sent == []
    {
      sent := [];
    }

    /** `sendPlaceCreatedNotification`: records one notification. */
    method SendPlaceCreatedNotification(userId: UserId, reelId: ReelId, placeCount: nat)
      modifies this
      ensures sent == old(sent) + [Notification(userId, reelId, placeCount)]
    {
      sent := sent + [Notification(userId, reelId, placeCount)];
    }
  }
}
