/** `ReelProcessingService.processReelAsync`: the pipeline run after a reel
    is saved. Each stage's failure ends the run quietly. */
module ReelProcessing {
  import opened Common
  import opened Entities
  import opened Store
  import opened InstagramParsing
  import opened AddressExtraction
  import opened GooglePlaces
  import opened InternalReel

  /** The pipeline's stages, in the order they run. */
  datatype Stage = ParseStage | ExtractStage | CreateStage | NotifyStage

  /** The addresses found in a reel once the parser has turned its caption
      `c` into the stored, trimmed caption. */
  function AddressesAfterParse(reelUrl: string, c: string, patterns: seq<Matcher>): seq<string> {
    AddressesOf(Some(ParseReelMetadata(reelUrl, c).caption), patterns)
  }

  /** With the address patterns of `AddressExtractionService`, a reel whose
      caption is only "주소: 서울" yields no address, so `ProcessReelAsync`
      stops after extraction and leaves the status as it was. */
  lemma ShortAddressCaptionStopsAfterExtract(reelUrl: string, tag: Matcher, general: Matcher)
    requires tag("주소: 서울") == [] && general("주소: 서울") == []
    ensures AddressesAfterParse(reelUrl, "주소: 서울", AddressPatterns(tag, general)) == []
  {
    var c := "주소: 서울";
    assert !JavaText.IsTrimmable(c[0]) && !JavaText.IsTrimmable(c[|c| - 1]);
    JavaText.TrimOfTrimmed(c);
    ShortLabelledAddressDropped(c, tag, general);
  }

  /** Stages 3 and 4: create the places for the addresses found, then
      notify the user when at least one place was created. */
  method CreateAndNotify(db: Database, reelId: ReelId, userId: UserId, addresses: seq<string>,
                         provider: Provider, config: PlacesConfig, faults: Faults, notifier: Notifier)
    returns (placeCount: nat)
    requires db.Valid() && reelId in db.reels
    modifies db, db.reels.Values, notifier
    ensures db.Valid()
    ensures db.users == old(db.users) && db.reels == old(db.reels) && db.stats == old(db.stats)
    ensures forall id :: id in db.reels && id != reelId ==> unchanged(db.reels[id])
    ensures db.reels[reelId].caption == old(db.reels[reelId].caption)
    ensures placeCount == |LandedOf(addresses, provider, faults)|
    ensures db.reels[reelId].status == DeriveStatus(placeCount, addresses)
    ensures notifier.sent
      == old(notifier.sent) + (if placeCount > 0 then [Notification(userId, reelId, placeCount)] else [])
  {
    var response := CreatePlaces(db, reelId, addresses, provider, config, faults);
    placeCount := |response.value.createdPlaces|;
    if placeCount > 0 {
      notifier.SendPlaceCreatedNotification(userId, reelId, placeCount);
    }
  }

  /** The stages after parsing, which see only the stored caption: extract
      the addresses, stop if there are none, create the places and notify
      when at least one was created. */
  method ExtractCreateNotify(db: Database, reelId: ReelId, userId: UserId, patterns: seq<Matcher>,
                             provider: Provider, config: PlacesConfig, faults: Faults, notifier: Notifier)
    returns (ghost last: Stage)
    requires db.Valid() && reelId in db.reels
    modifies db, db.reels.Values, notifier
    ensures db.Valid()
    ensures db.users == old(db.users) && db.reels == old(db.reels) && db.stats == old(db.stats)
    ensures forall id :: id in db.reels && id != reelId ==> unchanged(db.reels[id])
    ensures db.reels[reelId].caption == old(db.reels[reelId].caption)
    ensures AddressesOf(old(db.reels[reelId].caption), patterns) == [] ==>
      && last == ExtractStage
      && db.reels[reelId].status == old(db.reels[reelId].status)
      && notifier.sent == old(notifier.sent) && db.places == old(db.places)
    ensures var addresses := AddressesOf(old(db.reels[reelId].caption), patterns);
      addresses != [] ==>
      var created := |LandedOf(addresses, provider, faults)|;
      && last == (if created > 0 then NotifyStage else CreateStage)
      && db.reels[reelId].status == DeriveStatus(created, addresses)
      && notifier.sent
           == old(notifier.sent) + (if created > 0 then [Notification(userId, reelId, created)] else [])
  {
    last := ExtractStage;
    var extracted := InternalReel.ExtractAddresses(db, reelId, patterns);
    if extracted.Err? {
      return;
    }
    var addresses := extracted.value;
    if addresses == [] {
      return;
    }
    var placeCount := CreateAndNotify(db, reelId, userId, addresses, provider, config, faults, notifier);
    last := if placeCount > 0 then NotifyStage else CreateStage;
  }

  /** `processReelAsync`: parse the metadata, extract the addresses, stop
      if there are none, create the places, and notify the user when at
      least one place was created. An error at any stage is caught and ends
      the run. `last` is the last stage that ran. */
  method ProcessReelAsync(db: Database, reelId: ReelId, userId: UserId, captionOf: CaptionSource,
                          patterns: seq<Matcher>, provider: Provider, config: PlacesConfig,
                          faults: Faults, notifier: Notifier)
    returns (ghost last: Stage)
    requires db.Valid()
    modifies db, db.reels.Values, notifier
    ensures db.Valid()
    ensures db.users == old(db.users) && db.reels == old(db.reels) && db.stats == old(db.stats)
    ensures forall id :: id in db.reels && id != reelId ==> unchanged(db.reels[id])
    ensures reelId !in db.reels ==>
      last == ParseStage && notifier.sent == old(notifier.sent) && db.places == old(db.places)
    ensures reelId in db.reels ==>
      var reel := db.reels[reelId];
      match captionOf(reel.reelUrl)
      case None =>
        && last == ParseStage
        && reel.status == Failed
        && notifier.sent == old(notifier.sent) && db.places == old(db.places)
      case Some(c) =>
        var addresses := AddressesAfterParse(reel.reelUrl, c, patterns);
        var created := |LandedOf(addresses, provider, faults)|;
        && reel.caption == Some(ParseReelMetadata(reel.reelUrl, c).caption)
        && (addresses == [] ==>
              && last == ExtractStage
              && reel.status == old(reel.status)
              && notifier.sent == old(notifier.sent) && db.places == old(db.places))
        && (addresses != [] ==>
              && last == (if created > 0 then NotifyStage else CreateStage)
              && reel.status == DeriveStatus(created, addresses)
              && notifier.sent
                   == old(notifier.sent) + (if created > 0 then [Notification(userId, reelId, created)] else []))
  {
    var parsed := ParseMetadata(db, reelId, captionOf);
    if parsed.Err? {
      return ParseStage;
    }
    assert db.reels[reelId].caption == Some(ParseReelMetadata(db.reels[reelId].reelUrl, captionOf(db.reels[reelId].reelUrl).value).caption);
    last := ExtractCreateNotify(db, reelId, userId, patterns, provider, config, faults, notifier);
  }
}
