/** The repositories the services read and write, as one in-memory
    database: users, reels, places (with their images), reel-place links
    and per-user statistics. `Valid` is what the schema's keys and unique
    constraints guarantee. */
module Store {
  import opened Common
  import opened Entities

  class Database {
    var users: set<UserId>
    var reels: map<ReelId, Reel>
    var places: map<PlaceId, Place>
    var reelPlaces: seq<ReelPlace>
    var stats: map<UserId, UserStats>
    /** The next identity value handed out by an insert. */
    var nextId: nat

    /** Primary keys below the identity counter, owners that exist, one reel
        per (user, reelUrl), one place per (user, googlePlaceId), one stats
        row per user keyed by its id, and links between a reel and a place
        of the same user that both exist. */
    ghost predicate Valid()
      reads this
    {
      && (forall id :: id in reels ==> id < nextId && reels[id].user in users)
      && (forall id :: id in places ==> id < nextId && places[id].user in users)
      && (forall a, b :: a in reels && b in reels && a != b ==>
            reels[a].user != reels[b].user || reels[a].reelUrl != reels[b].reelUrl)
      && (forall a, b :: a in places && b in places && a != b ==>
            places[a].user != places[b].user || places[a].googlePlaceId != places[b].googlePlaceId)
      && (forall u :: u in stats ==> u in users && stats[u].userId == u)
      && (forall k :: 0 <= k < |reelPlaces| ==> LinkValid(reelPlaces[k]))
    }

    /** A link whose reel and place exist and belong to the same user. */
    ghost predicate LinkValid(link: ReelPlace)
      reads this
    {
      Linked(reels, places, link)
    }

    constructor (users: set<UserId>)
      ensures Valid()
      ensures this.users == users && reels == map[] && places == map[]
      ensures reelPlaces == [] && stats == map[]
    {
      this.users := users;
      reels := map[];
      places := map[];
      reelPlaces := [];
      stats := map[];
      nextId := 0;
    }

    /** `existsByUserIdAndReelUrl`. */
    predicate HasReel(user: UserId, reelUrl: string)
      reads this
    {
      exists id :: id in reels && reels[id].user == user && reels[id].reelUrl == reelUrl
    }

    /** `existsByUserIdAndGooglePlaceId`. */
    predicate HasPlace(user: UserId, googlePlaceId: string)
      reads this
    {
      exists id :: id in places && places[id].user == user && places[id].googlePlaceId == googlePlaceId
    }

    /** `findByUserIdAndGooglePlaceId`: the place with that key, if any. */
    method FindPlace(user: UserId, googlePlaceId: string) returns (id: Option<PlaceId>)
      ensures id.Some? <==> HasPlace(user, googlePlaceId)
      ensures id.Some? ==>
        id.value in places && places[id.value].user == user
        && places[id.value].googlePlaceId == googlePlaceId
    {
      if HasPlace(user, googlePlaceId) {
        var i :| i in places && places[i].user == user && places[i].googlePlaceId == googlePlaceId;
        id := Some(i);
      } else {
        id := None;
      }
    }

    /** `reelRepository.save` of a new reel: it gets the next identity. */
    method InsertReel(reel: Reel) returns (id: ReelId)
      requires Valid()
      requires reel.user in users && !HasReel(reel.user, reel.reelUrl)
      modifies this
      ensures Valid()
      ensures id !in old(reels) && reels == old(reels)[id := reel]
      ensures users == old(users) && places == old(places)
      ensures reelPlaces == old(reelPlaces) && stats == old(stats)
    {
      id := nextId;
      reels := reels[id := reel];
      nextId := nextId + 1;
    }

    /** `placeRepository.save` of a new place: it gets the next identity. */
    method InsertPlace(place: Place) returns (id: PlaceId)
      requires Valid()
      requires place.user in users && !HasPlace(place.user, place.googlePlaceId)
      modifies this
      ensures Valid()
      ensures id !in old(places) && places == old(places)[id := place]
      ensures users == old(users) && reels == old(reels)
      ensures reelPlaces == old(reelPlaces) && stats == old(stats)
    {
      id := nextId;
      places := places[id := place];
      nextId := nextId + 1;
      assert forall k :: 0 <= k < |reelPlaces| ==> old(reelPlaces[k].place) != id;
    }

    /** `reelPlaceRepository.save`. */
    method InsertReelPlace(link: ReelPlace)
      requires Valid() && LinkValid(link)
      modifies this
      ensures Valid()
      ensures reelPlaces == old(reelPlaces) + [link]
      ensures users == old(users) && reels == old(reels) && places == old(places) && stats == old(stats)
    {
      reelPlaces := reelPlaces + [link];
    }

    /** `userStatsRepository.save` of a user's first stats row. */
    method InsertStats(row: UserStats)
      requires Valid() && row.userId in users && row.userId !in stats
      modifies this
      ensures Valid()
      ensures stats == old(stats)[row.userId := row]
      ensures users == old(users) && reels == old(reels) && places == old(places)
      ensures reelPlaces == old(reelPlaces)
    {
      stats := stats[row.userId := row];
    }

    /** `reelRepository.delete`: the reel goes, and with it (orphan
        removal) every link to it. */
    method DeleteReel(id: ReelId)
      requires Valid() && id in reels
      modifies this
      ensures Valid()
      ensures reels == old(reels) - {id}
      ensures reelPlaces == Unlinked(old(reelPlaces), (link: ReelPlace) => link.reel == id)
      ensures users == old(users) && places == old(places) && stats == old(stats)
    {
      DropReelKeepsLinks(reels, places, reelPlaces, id);
      reelPlaces := Unlinked(reelPlaces, (link: ReelPlace) => link.reel == id);
      reels := reels - {id};
    }

    /** `placeRepository.delete`: the place goes, and with it (orphan
        removal) its images and every link to it. */
    method DeletePlace(id: PlaceId)
      requires Valid() && id in places
      modifies this
      ensures Valid()
      ensures places == old(places) - {id}
      ensures reelPlaces == Unlinked(old(reelPlaces), (link: ReelPlace) => link.place == id)
      ensures users == old(users) && reels == old(reels) && stats == old(stats)
    {
      DropPlaceKeepsLinks(reels, places, reelPlaces, id);
      reelPlaces := Unlinked(reelPlaces, (link: ReelPlace) => link.place == id);
      places := places - {id};
    }
  }

  /** A link between a reel and a place of the same user that both exist. */
  ghost predicate Linked(reels: map<ReelId, Reel>, places: map<PlaceId, Place>, link: ReelPlace) {
    link.reel in reels && link.place in places && reels[link.reel].user == places[link.place].user
  }

  /** The links left once a reel and its links are gone still hold. */
  lemma DropReelKeepsLinks(reels: map<ReelId, Reel>, places: map<PlaceId, Place>, links: seq<ReelPlace>, id: ReelId)
    requires forall k :: 0 <= k < |links| ==> Linked(reels, places, links[k])
    ensures var r := Unlinked(links, (link: ReelPlace) => link.reel == id);
      forall k :: 0 <= k < |r| ==> Linked(reels - {id}, places, r[k])
  {
    var r := Unlinked(links, (link: ReelPlace) => link.reel == id);
    forall k | 0 <= k < |r|
      ensures Linked(reels - {id}, places, r[k])
    {
      assert r[k] in r;
      var j :| 0 <= j < |links| && links[j] == r[k];
    }
  }

  /** The links left once a place and its links are gone still hold. */
  lemma DropPlaceKeepsLinks(reels: map<ReelId, Reel>, places: map<PlaceId, Place>, links: seq<ReelPlace>, id: PlaceId)
    requires forall k :: 0 <= k < |links| ==> Linked(reels, places, links[k])
    ensures var r := Unlinked(links, (link: ReelPlace) => link.place == id);
      forall k :: 0 <= k < |r| ==> Linked(reels, places - {id}, r[k])
  {
    var r := Unlinked(links, (link: ReelPlace) => link.place == id);
    forall k | 0 <= k < |r|
      ensures Linked(reels, places - {id}, r[k])
    {
      assert r[k] in r;
      var j :| 0 <= j < |links| && links[j] == r[k];
    }
  }

  /** The links that `removed` does not select, in their order;
      `UnlinkedCounts` adds that each one is kept as many times as it
      occurs and `UnlinkedAppend` that the order is kept. */
  function Unlinked(links: seq<ReelPlace>, removed: ReelPlace -> bool): (r: seq<ReelPlace>)
    ensures forall link :: link in r <==> link in links && !removed(link)
    ensures |r| <= |links|
  {
    if links == [] then []
    else Unlinked(links[..|links| - 1], removed) + (if removed(links[|links| - 1]) then [] else [links[|links| - 1]])
  }

  /** Each link `removed` does not select is kept as many times as it
      occurs, and each selected one is dropped entirely. */
  lemma {:induction false} UnlinkedCounts(links: seq<ReelPlace>, removed: ReelPlace -> bool)
    ensures var r := Unlinked(links, removed);
      forall link :: multiset(r)[link] == if removed(link) then 0 else multiset(links)[link]
    decreases |links|
  {
    if links != [] {
      var init, last := links[..|links| - 1], links[|links| - 1];
      assert links == init + [last];
      UnlinkedCounts(init, removed);
    }
  }

  /** Links are dropped piece by piece: the survivors of a concatenation
      are the survivors of each part, in the same order. */
  lemma {:induction false} UnlinkedAppend(a: seq<ReelPlace>, b: seq<ReelPlace>, removed: ReelPlace -> bool)
    ensures Unlinked(a + b, removed) == Unlinked(a, removed) + Unlinked(b, removed)
    decreases |b|
  {
    if b == [] {
      assert a + b == a;
    } else {
      var init, last := b[..|b| - 1], b[|b| - 1];
      var tail := if removed(last) then [] else [last];
      assert (a + b)[..|a + b| - 1] == a + init && (a + b)[|a + b| - 1] == last;
      assert Unlinked(a + b, removed) == Unlinked(a + init, removed) + tail;
      assert Unlinked(b, removed) == Unlinked(init, removed) + tail;
      UnlinkedAppend(a, init, removed);
      LinksAssoc(Unlinked(a, removed), Unlinked(init, removed), tail);
    }
  }

  lemma LinksAssoc(x: seq<ReelPlace>, y: seq<ReelPlace>, z: seq<ReelPlace>)
    ensures x + y + z == x + (y + z)
  {
  }
}
