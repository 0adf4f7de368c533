/** `GooglePlacesService`: the text-search cascade that turns a place name
    and/or an address into a `Place` with up to three photos. The HTTP call
    is a `Provider`: a function from a query to what the call produced. */
module GooglePlaces {
  import opened Common
  import opened JavaText
  import opened Entities

  /** `GooglePlacesResponse.Photo`. */
  datatype Photo = Photo(photoReference: string)

  /** `GooglePlacesResponse.PlaceResult`. */
  datatype PlaceResult = PlaceResult(
    placeId: string,
    name: string,
    formattedAddress: string,
    rating: Option<Rating>,
    userRatingsTotal: Option<int>,
    photos: Option<seq<Photo>>)

  /** What one text-search request gave: an exception, a null body, or a
      body with a (nullable) status and (nullable) result list. */
  datatype Outcome =
    | Thrown
    | NoBody
    | Body(status: Option<string>, results: Option<seq<PlaceResult>>)

  /** The text-search endpoint, as a function of the query string. */
  type Provider = string -> Outcome

  /** `GooglePlacesProperties`: the API's base URL and key. */
  datatype PlacesConfig = PlacesConfig(baseUrl: string, apiKey: string)

  /** `buildPhotoUrl`: `"%s/photo?maxwidth=400&photo_reference=%s&key=%s"`. */
  function PhotoUrl(config: PlacesConfig, photoReference: string): (url: string)
    ensures StartsWith(url, config.baseUrl + "/photo?maxwidth=400&photo_reference=")
    ensures EndsWith(url, "&key=" + config.apiKey)
  {
    var head := config.baseUrl + "/photo?maxwidth=400&photo_reference=";
    var url := head + photoReference + "&key=" + config.apiKey;
    assert url[..|head|] == head;
    assert url[|url| - |"&key=" + config.apiKey|..] == "&key=" + config.apiKey;
    url
  }

  /** Under one configuration, different photo references give different
      URLs. */
  lemma {:induction false} PhotoUrlInjective(config: PlacesConfig, r1: string, r2: string)
    requires PhotoUrl(config, r1) == PhotoUrl(config, r2)
    ensures r1 == r2
  {
    var head := config.baseUrl + "/photo?maxwidth=400&photo_reference=";
    var tail := "&key=" + config.apiKey;
    var u := PhotoUrl(config, r1);
    assert u == head + r1 + tail;
    assert u == head + r2 + tail;
    assert |r1| == |r2|;
    assert r1 == u[|head|..|head| + |r1|];
    assert r2 == u[|head|..|head| + |r2|];
  }

  /** A nullable string that is neither null nor blank. */
  predicate Present(s: Option<string>) {
    s.Some? && !IsBlank(s.value)
  }

  /** The search strategy in priority order: name and address together,
      the name alone, then the address with each of two category words. */
  function Queries(placeName: Option<string>, address: Option<string>): seq<string> {
    if Present(placeName) && Present(address) then
      [placeName.value + " " + address.value, placeName.value,
       address.value + " 카페", address.value + " 식당"]
    else if Present(placeName) then [placeName.value]
    else if Present(address) then [address.value + " 카페", address.value + " 식당"]
    else []
  }

  /** There is a query exactly when a name or an address is given, and the
      address-only queries are the two category fallbacks. */
  lemma QueriesShape(placeName: Option<string>, address: Option<string>)
    ensures Queries(placeName, address) == [] <==> !Present(placeName) && !Present(address)
    ensures |Queries(placeName, address)| in {0, 1, 2, 4}
    ensures !Present(placeName) && Present(address) ==>
      Queries(placeName, address) == [address.value + " 카페", address.value + " 식당"]
  {
  }

  /** `buildQueries`: each rule appends its queries in turn. */
  method BuildQueries(placeName: Option<string>, address: Option<string>) returns (queries: seq<string>)
    ensures queries == Queries(placeName, address)
  {
    queries := [];
    if placeName.Some? && !IsBlank(placeName.value) && address.Some? && !IsBlank(address.value) {
      queries := queries + [placeName.value + " " + address.value];
    }
    if placeName.Some? && !IsBlank(placeName.value) {
      queries := queries + [placeName.value];
    }
    if address.Some? && !IsBlank(address.value) {
      queries := queries + [address.value + " 카페"];
      queries := queries + [address.value + " 식당"];
    }
  }

  /** A response the cascade accepts: status `"OK"` and a non-empty result
      list. */
  predicate Usable(o: Outcome) {
    o.Body? && o.status == Some("OK") && o.results.Some? && |o.results.value| > 0
  }

  /** The index of the first query from `i` on whose response is usable, or
      `|queries|` when there is none. */
  function FirstUsable(queries: seq<string>, provider: Provider, i: nat): (k: nat)
    requires i <= |queries|
    ensures i <= k <= |queries|
    ensures forall j :: i <= j < k ==> !Usable(provider(queries[j]))
    ensures k < |queries| ==> Usable(provider(queries[k]))
    decreases |queries| - i
  {
    if i == |queries| then i
    else if Usable(provider(queries[i])) then i
    else FirstUsable(queries, provider, i + 1)
  }

  /** The result the cascade builds its place from: the first entry of the
      first usable response. */
  function Chosen(queries: seq<string>, provider: Provider): (r: Option<PlaceResult>)
    ensures r.Some? <==> exists j :: 0 <= j < |queries| && Usable(provider(queries[j]))
  {
    var k := FirstUsable(queries, provider, 0);
    if k < |queries| then Some(provider(queries[k]).results.value[0]) else None
  }

  /** Answers that are not usable change nothing: the cascade only looks
      at the first usable response. */
  lemma {:induction false} ChosenSkipsUnusable(queries: seq<string>, provider: Provider, skipped: nat)
    requires skipped <= |queries|
    requires forall j :: 0 <= j < skipped ==> !Usable(provider(queries[j]))
    ensures Chosen(queries, provider) == Chosen(queries[skipped..], provider)
  {
    var rest := queries[skipped..];
    assert forall j :: 0 <= j < |rest| ==> rest[j] == queries[j + skipped];
    var k := FirstUsable(queries, provider, 0);
    var k' := FirstUsable(rest, provider, 0);
    if k < |queries| {
      assert rest[k - skipped] == queries[k];
      assert k' == k - skipped;
    } else {
      assert k' == |rest|;
    }
  }

  /** How many images a result yields: at most three, none without photos. */
  function ImageCount(photos: Option<seq<Photo>>): (n: nat)
    ensures photos.None? ==> n == 0
    ensures photos.Some? ==> n <= 3 && n <= |photos.value| && (n == 3 || n == |photos.value|)
  {
    if photos.None? || |photos.value| == 0 then 0
    else if |photos.value| < 3 then |photos.value| else 3
  }

  /** `place` is what `buildPlaceEntity` makes of `r` for `user`: the
      result's fields unchanged and image `i` built from photo `i` with sort
      order `i`, each pointing back at the place. */
  ghost predicate BuiltFrom(place: Place, user: UserId, r: PlaceResult, config: PlacesConfig)
    reads place, place.images
  {
    place.user == user && place.googlePlaceId == r.placeId && place.name == r.name
    && place.address == r.formattedAddress && place.rating == r.rating
    && place.reviewCount == r.userRatingsTotal
    && |place.images| == ImageCount(r.photos)
    && forall i :: 0 <= i < |place.images| ==>
         place.images[i].imageUrl == PhotoUrl(config, r.photos.value[i].photoReference)
         && place.images[i].sortOrder == i
         && place.images[i].place == place
  }

  /** `buildPlaceEntity`: a new place with the result's fields and its first
      (at most three) photos. */
  method BuildPlaceEntity(user: UserId, r: PlaceResult, config: PlacesConfig) returns (place: Place)
    ensures fresh(place)
    ensures forall i :: 0 <= i < |place.images| ==> fresh(place.images[i])
    ensures BuiltFrom(place, user, r, config)
  {
    place := new Place(user, r.placeId, r.name, r.formattedAddress, r.rating, r.userRatingsTotal);
    if r.photos.Some? && |r.photos.value| > 0 {
      var photoCount := if |r.photos.value| < 3 then |r.photos.value| else 3;
      for i := 0 to photoCount
        invariant |place.images| == i
        invariant forall j :: 0 <= j < i ==> fresh(place.images[j])
        invariant forall j :: 0 <= j < i ==>
          place.images[j].imageUrl == PhotoUrl(config, r.photos.value[j].photoReference)
          && place.images[j].sortOrder == j
          && place.images[j].place == place
      {
        var photoReference := r.photos.value[i].photoReference;
        var image := new PlaceImage(place, PhotoUrl(config, photoReference), i);
        place.AddImage(image);
      }
    }
  }

  /** `searchPlace`: tries the queries in order, passing over an exception,
      a null body, a status other than `"OK"` and an empty result list, and
      builds the place from the first result of the first usable response.
      `tried` is the queries sent, in order. */
  method SearchPlace(user: UserId, placeName: Option<string>, address: Option<string>,
                     provider: Provider, config: PlacesConfig)
    returns (place: Place?, ghost tried: seq<string>)
    ensures var queries := Queries(placeName, address);
      var k := FirstUsable(queries, provider, 0);
      && (place == null <==> k == |queries|)
      && (k == |queries| ==> tried == queries)
      && (k < |queries| ==> tried == queries[..k + 1])
    ensures place == null <==> Chosen(Queries(placeName, address), provider).None?
    ensures place != null ==>
      && fresh(place)
      && BuiltFrom(place, user, Chosen(Queries(placeName, address), provider).value, config)
  {
    var queries := BuildQueries(placeName, address);
    tried := [];
    if queries == [] {
      return null, tried;
    }
    for i := 0 to |queries|
      invariant tried == queries[..i]
      invariant forall j :: 0 <= j < i ==> !Usable(provider(queries[j]))
    {
      var query := queries[i];
      tried := tried + [query];
      var response := provider(query);
      if response.Thrown? || response.NoBody? {
        continue;
      }
      if response.status != Some("OK") {
        continue;
      }
      if response.results.None? || |response.results.value| == 0 {
        continue;
      }
      var r := response.results.value[0];
      place := BuildPlaceEntity(user, r, config);
      return place, tried;
    }
    return null, tried;
  }
}
