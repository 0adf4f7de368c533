/** `InternalReelService`: the per-reel stages of the pipeline (metadata,
    addresses, places) and the debugging status override. */
module InternalReel {
  import opened Common
  import opened JavaText
  import opened Entities
  import opened Store
  import opened InstagramParsing
  import opened AddressExtraction
  import opened GooglePlaces

  /** `ParseMetadataResponse`, without its timestamp. */
  datatype ParsedMetadata = ParsedMetadata(reelId: ReelId, thumbnailUrl: string, caption: string)

  /** What `parseReelMetadata` does with a reel's URL: `Some(c)` when it
      returns, `c` being the caption it works with before trimming, and
      `None` when it throws. The code as written always works with one
      fixed caption; its disabled oEmbed fetch would give another source,
      whose failures yield the empty caption, not `None`. */
  type CaptionSource = string -> Option<string>

  /** `CreatePlacesResponse.CreatedPlace`. */
  datatype CreatedPlace = CreatedPlace(
    placeId: PlaceId, googlePlaceId: string, name: string, address: string, imageCount: nat)

  /** `CreatePlacesResponse`, without its timestamp. */
  datatype CreatePlacesResponse = CreatePlacesResponse(
    reelId: ReelId, createdPlaces: seq<CreatedPlace>, failedAddresses: seq<string>)

  /** Whether a repository call for one address throws: before the place is
      looked up or saved, or after, when the link is saved. */
  datatype StoreFault = NoFault | FailsBeforeSave | FailsAfterSave

  /** The repository fault for the address at each position. */
  type Faults = nat -> StoreFault

  /** `parseMetadata`: parses the reel's URL and caption and stores them;
      when parsing throws, the reel is marked `FAILED` and the call fails. */
  method ParseMetadata(db: Database, reelId: ReelId, captionOf: CaptionSource)
    returns (r: Result<ParsedMetadata>)
    requires db.Valid()
    modifies db.reels.Values
    ensures forall id :: id in db.reels && id != reelId ==> unchanged(db.reels[id])
    ensures reelId !in db.reels ==> r == Err(ReelNotFound)
    ensures reelId in db.reels ==>
      var reel := db.reels[reelId];
      match captionOf(reel.reelUrl)
      case None =>
        && r == Err(InternalServerError)
        && reel.status == Failed
        && reel.thumbnailUrl == old(reel.thumbnailUrl) && reel.caption == old(reel.caption)
      case Some(c) =>
        var m := ParseReelMetadata(reel.reelUrl, c);
        && r == Ok(ParsedMetadata(reelId, m.thumbnailUrl, m.caption))
        && reel.thumbnailUrl == Some(m.thumbnailUrl) && reel.caption == Some(m.caption)
        && reel.status == old(reel.status)
  {
    if reelId !in db.reels {
      return Err(ReelNotFound);
    }
    var reel := db.reels[reelId];
    var caption := captionOf(reel.reelUrl);
    if caption.None? {
      reel.UpdateStatus(Failed);
      return Err(InternalServerError);
    }
    var metadata := ParseReelMetadata(reel.reelUrl, caption.value);
    reel.UpdateMetadata(metadata.thumbnailUrl, metadata.caption);
    r := Ok(ParsedMetadata(reelId, metadata.thumbnailUrl, metadata.caption));
  }

  /** `extractAddresses`: the addresses in the reel's stored caption. The
      reel must exist and have a caption that is not blank. */
  method ExtractAddresses(db: Database, reelId: ReelId, patterns: seq<Matcher>)
    returns (r: Result<seq<string>>)
    ensures reelId !in db.reels ==> r == Err(ReelNotFound)
    ensures reelId in db.reels && IsAbsent(db.reels[reelId].caption) ==> r == Err(InvalidInputValue)
    ensures reelId in db.reels && !IsAbsent(db.reels[reelId].caption) ==>
      && r == Ok(AddressesOf(db.reels[reelId].caption, patterns))
      && NoDuplicates(r.value)
      && forall k :: 0 <= k < |r.value| ==> Utf16Length(r.value[k]) >= 5
  {
    if reelId !in db.reels {
      return Err(ReelNotFound);
    }
    var caption := db.reels[reelId].caption;
    if caption.None? || IsBlank(caption.value) {
      return Err(InvalidInputValue);
    }
    var addresses := AddressExtraction.ExtractAddresses(caption, patterns);
    r := Ok(addresses);
  }

  /** The search `createPlaces` runs for one address: the two-argument
      `searchPlace(user, address)` call, which passes no place name. */
  function SearchFor(address: string, provider: Provider): Option<PlaceResult> {
    Chosen(Queries(None, Some(address)), provider)
  }

  /** The address at position `i` ends up in `createdPlaces`: the search
      found a place and no repository call threw. */
  predicate Lands(address: string, i: nat, provider: Provider, faults: Faults) {
    SearchFor(address, provider).Some? && faults(i) == NoFault
  }

  /** The search results behind `createdPlaces`, in address order. */
  function LandedOf(addresses: seq<string>, provider: Provider, faults: Faults): (rs: seq<PlaceResult>)
    ensures |rs| <= |addresses|
  {
    if addresses == [] then []
    else
      var i := |addresses| - 1;
      LandedOf(addresses[..i], provider, faults)
        + (if Lands(addresses[i], i, provider, faults) then [SearchFor(addresses[i], provider).value] else [])
  }

  /** `failedAddresses`: the addresses that did not land, in order. */
  function FailedOf(addresses: seq<string>, provider: Provider, faults: Faults): (fs: seq<string>)
    ensures |fs| <= |addresses|
  {
    if addresses == [] then []
    else
      var i := |addresses| - 1;
      FailedOf(addresses[..i], provider, faults)
        + (if Lands(addresses[i], i, provider, faults) then [] else [addresses[i]])
  }

  /** Every address lands in exactly one of the two lists, so their sizes
      add up to the number of addresses. */
  lemma {:induction false} LandedOrFailed(addresses: seq<string>, provider: Provider, faults: Faults)
    ensures |LandedOf(addresses, provider, faults)| + |FailedOf(addresses, provider, faults)| == |addresses|
    ensures forall x :: x in FailedOf(addresses, provider, faults) ==>
      exists i :: 0 <= i < |addresses| && addresses[i] == x && !Lands(x, i, provider, faults)
  {
    if addresses != [] {
      LandedOrFailed(addresses[..|addresses| - 1], provider, faults);
    }
  }

  /** Some place was created exactly when some address landed. */
  lemma {:induction false} LandedIffSomeLands(addresses: seq<string>, provider: Provider, faults: Faults)
    ensures |LandedOf(addresses, provider, faults)| > 0 <==>
      exists i :: 0 <= i < |addresses| && Lands(addresses[i], i, provider, faults)
  {
    if addresses != [] {
      var n := |addresses| - 1;
      var front := addresses[..n];
      LandedIffSomeLands(front, provider, faults);
      assert forall i :: 0 <= i < n ==> front[i] == addresses[i];
    }
  }

  /** The status `createPlaces` leaves the reel in. */
  function DeriveStatus(createdCount: nat, addresses: seq<string>): ReelStatus {
    if createdCount > 0 then PlaceFound
    else if addresses == [] then NoAddress
    else ReelStatus.PlaceNotFound
  }

  /** `PLACE_FOUND` exactly when some address landed, `NO_ADDRESS` exactly
      when there were no addresses, `PLACE_NOT_FOUND` exactly when there
      were addresses and none landed. */
  lemma StatusOfCreatePlaces(addresses: seq<string>, provider: Provider, faults: Faults)
    ensures var s := DeriveStatus(|LandedOf(addresses, provider, faults)|, addresses);
      && (s == PlaceFound <==> exists i :: 0 <= i < |addresses| && Lands(addresses[i], i, provider, faults))
      && (s == NoAddress <==> addresses == [])
      && (s == ReelStatus.PlaceNotFound <==>
            addresses != [] && forall i :: 0 <= i < |addresses| ==> !Lands(addresses[i], i, provider, faults))
  {
    LandedIffSomeLands(addresses, provider, faults);
  }

  /** A provider that never answers usably fails every address. */
  lemma {:induction false} NothingFoundAllFail(addresses: seq<string>, provider: Provider, faults: Faults)
    requires forall q :: !Usable(provider(q))
    ensures FailedOf(addresses, provider, faults) == addresses
    ensures DeriveStatus(|LandedOf(addresses, provider, faults)|, addresses)
      == (if addresses == [] then NoAddress else ReelStatus.PlaceNotFound)
  {
    if addresses != [] {
      var n := |addresses| - 1;
      NothingFoundAllFail(addresses[..n], provider, faults);
      var qs := Queries(None, Some(addresses[n]));
      assert FirstUsable(qs, provider, 0) == |qs|;
      assert addresses[..n] + [addresses[n]] == addresses;
    }
  }

  /** `created` describes the stored place it names, which belongs to
      `user` and carries the provider's id for `result`. */
  predicate Describes(places: map<PlaceId, Place>, user: UserId, created: CreatedPlace, result: PlaceResult) {
    && created.placeId in places
    && var place := places[created.placeId];
    && place.user == user
    && place.googlePlaceId == result.placeId == created.googlePlaceId
    && created.name == place.name && created.address == place.address
  }

  /** Each created place describes the matching landed search result. */
  predicate Recorded(places: map<PlaceId, Place>, user: UserId, created: seq<CreatedPlace>, landed: seq<PlaceResult>) {
    |created| == |landed| && forall k :: 0 <= k < |created| ==> Describes(places, user, created[k], landed[k])
  }

  /** The links `createPlaces` saves, one per created place. */
  function Links(reelId: ReelId, created: seq<CreatedPlace>): (links: seq<ReelPlace>)
    ensures |links| == |created|
    ensures forall k :: 0 <= k < |created| ==> links[k] == ReelPlace(reelId, created[k].placeId)
  {
    if created == [] then []
    else Links(reelId, created[..|created| - 1]) + [ReelPlace(reelId, created[|created| - 1].placeId)]
  }

  /** Every place stored in `before` is still stored, unchanged, in `after`. */
  predicate Kept(before: map<PlaceId, Place>, after: map<PlaceId, Place>) {
    forall id :: id in before ==> id in after && after[id] == before[id]
  }

  /** The provider's id of the place found for `address`, if one was. */
  function FoundId(address: string, provider: Provider): set<string> {
    match SearchFor(address, provider)
    case None => {}
    case Some(result) => {result.placeId}
  }

  /** The provider's ids of the places found for any of `addresses`. */
  function FoundIds(addresses: seq<string>, provider: Provider): set<string> {
    if addresses == [] then {}
    else FoundIds(addresses[..|addresses| - 1], provider) + FoundId(addresses[|addresses| - 1], provider)
  }

  /** An id is found for some addresses exactly when the search for one of
      them found a place with that id. */
  lemma {:induction false} FoundIdsMeaning(addresses: seq<string>, provider: Provider, id: string)
    ensures id in FoundIds(addresses, provider) <==>
      exists j :: 0 <= j < |addresses| && SearchFor(addresses[j], provider).Some?
        && SearchFor(addresses[j], provider).value.placeId == id
  {
    if addresses != [] {
      var n := |addresses| - 1;
      var front := addresses[..n];
      FoundIdsMeaning(front, provider, id);
      assert forall j :: 0 <= j < n ==> front[j] == addresses[j];
    }
  }

  /** The places stored since `before` are `user`'s and carry one of `ids`. */
  predicate NewPlacesFrom(before: map<PlaceId, Place>, after: map<PlaceId, Place>, user: UserId, ids: set<string>) {
    forall id :: id in after && id !in before ==> after[id].user == user && after[id].googlePlaceId in ids
  }

  /** What `createPlaces` has done once the addresses in `done` are
      processed: stored places kept, the failed and created lists, one new
      link per created place, and no place stored that no search found. */
  predicate Progress(before: map<PlaceId, Place>, places: map<PlaceId, Place>,
                     linksBefore: seq<ReelPlace>, links: seq<ReelPlace>,
                     reelId: ReelId, user: UserId, done: seq<string>, provider: Provider, faults: Faults,
                     created: seq<CreatedPlace>, failed: seq<string>)
  {
    && Kept(before, places)
    && failed == FailedOf(done, provider, faults)
    && Recorded(places, user, created, LandedOf(done, provider, faults))
    && links == linksBefore + Links(reelId, created)
    && NewPlacesFrom(before, places, user, FoundIds(done, provider))
  }

  /** Extending the processed addresses by one extends each list by at
      most that address's outcome. */
  lemma LandedAndFailedStep(addresses: seq<string>, i: nat, provider: Provider, faults: Faults)
    requires i < |addresses|
    ensures var done := addresses[..i]; var done' := addresses[..i + 1];
      var lands := Lands(addresses[i], i, provider, faults);
      && LandedOf(done', provider, faults)
           == LandedOf(done, provider, faults) + (if lands then [SearchFor(addresses[i], provider).value] else [])
      && FailedOf(done', provider, faults) == FailedOf(done, provider, faults) + (if lands then [] else [addresses[i]])
  {
    assert addresses[..i + 1][..i] == addresses[..i];
  }

  /** Descriptions stay true while stored places stay, and one more
      created place extends them. */
  lemma {:induction false} RecordedStep(places: map<PlaceId, Place>, places': map<PlaceId, Place>, user: UserId,
                                        created: seq<CreatedPlace>, landed: seq<PlaceResult>,
                                        next: Option<CreatedPlace>, result: Option<PlaceResult>)
    requires Recorded(places, user, created, landed)
    requires Kept(places, places')
    requires next.Some? ==> result.Some? && Describes(places', user, next.value, result.value)
    ensures Recorded(places', user, created + (if next.Some? then [next.value] else []),
                     landed + (if next.Some? then [result.value] else []))
  {
    var created' := created + (if next.Some? then [next.value] else []);
    var landed' := landed + (if next.Some? then [result.value] else []);
    forall k | 0 <= k < |created'|
      ensures Describes(places', user, created'[k], landed'[k])
    {
      if k < |created| {
        assert Describes(places, user, created[k], landed[k]);
        assert created'[k] == created[k] && landed'[k] == landed[k];
      }
    }
  }

  /** One more created place adds its link after those already saved. */
  lemma LinksStep(saved: seq<ReelPlace>, reelId: ReelId, created: seq<CreatedPlace>, next: Option<CreatedPlace>)
    ensures saved + Links(reelId, created + (if next.Some? then [next.value] else []))
      == saved + Links(reelId, created) + (if next.Some? then [ReelPlace(reelId, next.value.placeId)] else [])
  {
    if next.Some? {
      assert (created + [next.value])[..|created|] == created;
      assert Links(reelId, created + [next.value]) == Links(reelId, created) + [ReelPlace(reelId, next.value.placeId)];
    } else {
      assert created + [] == created;
    }
  }

  /** Places stored for the earlier addresses or for the next one are
      places found for the addresses so far. */
  lemma {:induction false} NewPlacesStep(before: map<PlaceId, Place>, places: map<PlaceId, Place>,
                                         places': map<PlaceId, Place>, user: UserId,
                                         addresses: seq<string>, i: nat, provider: Provider)
    requires i < |addresses|
    requires Kept(before, places) && Kept(places, places')
    requires NewPlacesFrom(before, places, user, FoundIds(addresses[..i], provider))
    requires NewPlacesFrom(places, places', user, FoundId(addresses[i], provider))
    ensures NewPlacesFrom(before, places', user, FoundIds(addresses[..i + 1], provider))
  {
    assert addresses[..i + 1][..i] == addresses[..i];
    assert FoundIds(addresses[..i + 1], provider) == FoundIds(addresses[..i], provider) + FoundId(addresses[i], provider);
  }

  /** One iteration of the loop in `createPlaces`: search, reuse or save the
      place, save the link. `None` means the address failed. */
  method CreatePlaceFor(db: Database, reelId: ReelId, address: string, i: nat,
                        provider: Provider, config: PlacesConfig, faults: Faults)
    returns (created: Option<CreatedPlace>)
    requires db.Valid() && reelId in db.reels
    modifies db
    ensures db.Valid()
    ensures db.users == old(db.users) && db.reels == old(db.reels) && db.stats == old(db.stats)
    ensures Kept(old(db.places), db.places)
    ensures NewPlacesFrom(old(db.places), db.places, db.reels[reelId].user, FoundId(address, provider))
    ensures created.Some? <==> Lands(address, i, provider, faults)
    ensures created.Some? ==>
      && Describes(db.places, db.reels[reelId].user, created.value, SearchFor(address, provider).value)
      && db.reelPlaces == old(db.reelPlaces) + [ReelPlace(reelId, created.value.placeId)]
    ensures created.None? ==> db.reelPlaces == old(db.reelPlaces)
  {
    var reel := db.reels[reelId];
    var place, tried := SearchPlace(reel.user, None, Some(address), provider, config);
    if place == null {
      return None;
    }
    if faults(i) == FailsBeforeSave {
      return None;
    }
    var id: PlaceId;
    var existing := db.FindPlace(reel.user, place.googlePlaceId);
    if existing.Some? {
      id := existing.value;
    } else {
      id := db.InsertPlace(place);
    }
    if faults(i) == FailsAfterSave {
      return None;
    }
    db.InsertReelPlace(ReelPlace(reelId, id));
    var saved := db.places[id];
    created := Some(CreatedPlace(id, saved.googlePlaceId, saved.name, saved.address, |saved.images|));
  }

  /** The loop of `createPlaces`: every address in turn, each failure
      confined to its own address. */
  method CreateAll(db: Database, reelId: ReelId, addresses: seq<string>,
                   provider: Provider, config: PlacesConfig, faults: Faults)
    returns (createdPlaces: seq<CreatedPlace>, failedAddresses: seq<string>)
    requires db.Valid() && reelId in db.reels
    modifies db
    ensures db.Valid()
    ensures db.users == old(db.users) && db.reels == old(db.reels) && db.stats == old(db.stats)
    ensures Progress(old(db.places), db.places, old(db.reelPlaces), db.reelPlaces, reelId, db.reels[reelId].user,
      addresses, provider, faults, createdPlaces, failedAddresses)
  {
    var user := db.reels[reelId].user;
    createdPlaces := [];
    failedAddresses := [];
    for i := 0 to |addresses|
      invariant db.Valid() && reelId in db.reels && db.reels[reelId].user == user
      invariant db.users == old(db.users) && db.reels == old(db.reels) && db.stats == old(db.stats)
      invariant Progress(old(db.places), db.places, old(db.reelPlaces), db.reelPlaces, reelId, user,
        addresses[..i], provider, faults, createdPlaces, failedAddresses)
    {
      ghost var places := db.places;
      var created := CreatePlaceFor(db, reelId, addresses[i], i, provider, config, faults);
      LandedAndFailedStep(addresses, i, provider, faults);
      RecordedStep(places, db.places, user, createdPlaces, LandedOf(addresses[..i], provider, faults),
        created, SearchFor(addresses[i], provider));
      LinksStep(old(db.reelPlaces), reelId, createdPlaces, created);
      NewPlacesStep(old(db.places), places, db.places, user, addresses, i, provider);
      createdPlaces := createdPlaces + (if created.Some? then [created.value] else []);
      failedAddresses := failedAddresses + (if created.Some? then [] else [addresses[i]]);
    }
    assert addresses[..|addresses|] == addresses;
  }

  /** `createPlaces`: searches every address in turn. A failure for one
      address (nothing found, or a repository exception) only records that
      address; places are reused per (user, googlePlaceId) and one link is
      saved per created place. The reel's status then reflects the outcome. */
  method CreatePlaces(db: Database, reelId: ReelId, addresses: seq<string>,
                      provider: Provider, config: PlacesConfig, faults: Faults)
    returns (r: Result<CreatePlacesResponse>)
    requires db.Valid()
    modifies db, db.reels.Values
    ensures db.Valid()
    ensures db.users == old(db.users) && db.reels == old(db.reels) && db.stats == old(db.stats)
    ensures forall id :: id in db.reels && id != reelId ==> unchanged(db.reels[id])
    ensures Kept(old(db.places), db.places)
    ensures reelId !in db.reels ==>
      r == Err(ReelNotFound) && db.places == old(db.places) && db.reelPlaces == old(db.reelPlaces)
    ensures reelId in db.reels ==>
      var reel := db.reels[reelId];
      var landed := LandedOf(addresses, provider, faults);
      && r.Ok? && r.value.reelId == reelId
      && r.value.failedAddresses == FailedOf(addresses, provider, faults)
      && Recorded(db.places, reel.user, r.value.createdPlaces, landed)
      && db.reelPlaces == old(db.reelPlaces) + Links(reelId, r.value.createdPlaces)
      && NewPlacesFrom(old(db.places), db.places, reel.user, FoundIds(addresses, provider))
      && reel.status == DeriveStatus(|landed|, addresses)
      && reel.thumbnailUrl == old(reel.thumbnailUrl) && reel.caption == old(reel.caption)
  {
    if reelId !in db.reels {
      return Err(ReelNotFound);
    }
    var reel := db.reels[reelId];
    var createdPlaces, failedAddresses := CreateAll(db, reelId, addresses, provider, config, faults);
    var status := DeriveStatus(|createdPlaces|, addresses);
    reel.UpdateStatus(status);
    r := Ok(CreatePlacesResponse(reelId, createdPlaces, failedAddresses));
  }

  /** `updateReelStatus`: sets any status on an existing reel, whatever its
      current one. */
  method UpdateReelStatus(db: Database, reelId: ReelId, status: ReelStatus) returns (r: Result<()>)
    requires db.Valid()
    modifies db.reels.Values
    ensures forall id :: id in db.reels && id != reelId ==> unchanged(db.reels[id])
    ensures reelId !in db.reels ==> r == Err(ReelNotFound)
    ensures reelId in db.reels ==>
      && r == Ok(())
      && db.reels[reelId].status == status
      && db.reels[reelId].thumbnailUrl == old(db.reels[reelId].thumbnailUrl)
      && db.reels[reelId].caption == old(db.reels[reelId].caption)
  {
    if reelId !in db.reels {
      return Err(ReelNotFound);
    }
    db.reels[reelId].UpdateStatus(status);
    r := Ok(());
  }
}
