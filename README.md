# ReelsPlace: the reel-to-place pipeline, modelled in Dafny

ReelsPlace is a Spring backend. A user saves an Instagram reel link. The
server then works through four stages in the background:

1. It parses the reel's metadata: it normalises the URL into a thumbnail URL and trims the caption.
2. It extracts candidate addresses from the caption with a fixed list of regular expressions.
3. It looks each address up with the Google Places text search. It stores the place found, or reuses the user's copy of it, and links it to the reel. Then it sets the reel's status.
4. It sends a notification when at least one place was created.

Around that pipeline sit the entities (`Reel`, `Place`, `PlaceImage`,
`UserStats`) and the services that save and delete reels and places and
count map openings.

The model follows the program's structure, one module per source unit:

- `Common`: the error codes, `Result`, nullable values, `ReelStatus` and Java's wrapping `int`.
- `JavaText`: the `String` and regex behaviour the code relies on:
  - `trim()` removes every code point up to U+0020;
  - `isBlank()` uses `Character.isWhitespace`;
  - `length()` counts UTF-16 code units;
  - `\s` is the six ASCII whitespace characters;
  - `equalsIgnoreCase` folds case for ASCII letters only, which is all the code compares it against;
  - `replace` is included.
- `InstagramParsing`: `InstagramParsingService.parseReelMetadata`.
- `AddressExtraction`: `AddressExtractionService`.
  - The loop over patterns and matches is a method.
  - That method is proved against `Gathered`: the list of cleaned captures at least 5 UTF-16 units long, without duplicates, in order of first occurrence.
  - The "주소:", "위치:" and pin patterns are matched as `java.util.regex` does.
- `GooglePlaces`: `GooglePlacesService`. It covers the query priority list, the first usable response, and the place entity with up to three images.
- `Entities`: the JPA entities as classes whose methods update their fields, plus a `Notifier` that records what `NotificationService` is asked to send.
- `Store`: the repositories as one `Database` object. Its invariant `Valid` carries:
  - the unique constraints on (user, reelUrl) and (user, googlePlaceId);
  - one stats row per user;
  - the rule that a `ReelPlace` link joins a reel and a place of the same user.
  - Deleting a reel or a place removes its links, as orphan removal does.
- `InternalReel`: `InternalReelService`. `createPlaces` is a loop over the addresses, proved against `LandedOf` and `FailedOf`: every address lands in exactly one of the two lists. The reel's status is derived from them.
- `ReelService`, `PlaceService`: save, validate and delete reels; list and delete places; record a map opening.
- `ReelProcessing`: `processReelAsync`, the four stages in order, where the first failure ends the run.

The outside world is passed in as parameters:

- What the parser does with a reel's URL is a `CaptionSource`: `Some(c)` when it returns, with `c` the caption before trimming, and `None` when `parseReelMetadata` throws.
- The Places API is a `Provider` from query to response. It can throw, return no body, or return a status and results.
- A repository exception during `createPlaces` is a `Faults` oracle. Given the address's index, it says whether that address's turn throws before or after its place is saved.
- The regular expressions with no concrete model are `Matcher`s: functions from text to captures in match order.
- The pipeline (`InternalReel.ExtractAddresses`, `ReelProcessing.ProcessReelAsync`) takes its list of address patterns as a parameter and is proved for every such list. `AddressExtraction.AddressPatterns` builds the service's own list; `ReelProcessing.ShortAddressCaptionStopsAfterExtract` runs the pipeline's extraction stage on it.

Two places where the code differs from its comments or documentation:

- The comment at `ReelProcessingService.java:48` says the status is already `NO_ADDRESS` when no address is found. Nothing sets it on that path, so the model leaves the status as it was. `ProcessReelAsync` states this.
- `processReelAsync` calls `createPlaces`, which searches with the address alone. The model searches with no name.

## Model

| member | source | states |
|---|---|---|
| `Common.Int32Inc` | src/main/java/com/example/reelsplace/domain/entity/UserStats.java:50-52 | `mapOpenCount++` on a Java int: the successor taken modulo 2^32 into the signed range, as two's-complement addition gives it |
| `JavaText.Utf16Length` | src/main/java/com/example/reelsplace/api/internal/service/AddressExtractionService.java:71 | `String.length()` counts UTF-16 units: between the number of code points and twice that |
| `JavaText.Utf16LengthAppend` | src/main/java/com/example/reelsplace/api/internal/service/AddressExtractionService.java:71 | the UTF-16 length of a concatenation is the sum of the lengths |
| `JavaText.IndexOfFrom` | src/main/java/com/example/reelsplace/api/internal/service/InstagramParsingService.java:45-46 | `indexOf` gives -1 exactly when the pattern occurs nowhere from the start index, and otherwise the first index where it occurs |
| `JavaText.ContainsIff` | src/main/java/com/example/reelsplace/api/reel/service/ReelService.java:88 | `contains` holds exactly when the pattern occurs at some index |
| `JavaText.ReplaceAllAbsent` | src/main/java/com/example/reelsplace/api/internal/service/InstagramParsingService.java:58 | `replace` leaves a string without an occurrence of the target unchanged |
| `JavaText.ReplaceAllFirst` | src/main/java/com/example/reelsplace/api/internal/service/InstagramParsingService.java:58 | `replace` rewrites an occurrence preceded by no other occurrence and carries on after it |
| `JavaText.Trim` | src/main/java/com/example/reelsplace/api/internal/service/InstagramParsingService.java:122-125 | `trim()` returns the middle of the string: only characters up to U+0020 are removed, at both ends, and the result neither starts nor ends with one |
| `JavaText.TrimOfTrimmed` | src/main/java/com/example/reelsplace/api/internal/service/AddressExtractionService.java:113 | `trim()` leaves a string that is already trimmed unchanged |
| `JavaText.EqualsIgnoreCaseCaseless` | src/main/java/com/example/reelsplace/api/internal/service/AddressExtractionService.java:138 | against a word without ASCII letters, `equalsIgnoreCase` is plain equality |
| `InstagramParsing.StripQuery` | src/main/java/com/example/reelsplace/api/internal/service/InstagramParsingService.java:45-47 | the URL up to its first `?`: a prefix with no `?`, followed in the URL by `?` when shorter |
| `InstagramParsing.NormalizeUrl` | src/main/java/com/example/reelsplace/api/internal/service/InstagramParsingService.java:42-52 | the query removed, then at most one trailing `/`: a prefix of the URL without `?`, at most one character shorter than the query-stripped URL, and that character is `/` |
| `InstagramParsing.QueryIgnored` | src/main/java/com/example/reelsplace/api/internal/service/InstagramParsingService.java:45-52 | whatever follows the first `?` does not change the normalised URL |
| `InstagramParsing.ThumbnailUrl` | src/main/java/com/example/reelsplace/api/internal/service/InstagramParsingService.java:58-59 | the thumbnail URL always ends with `/media/?size=l` |
| `InstagramParsing.ParseReelMetadata` | src/main/java/com/example/reelsplace/api/internal/service/InstagramParsingService.java:37-59 | both returned strings are trimmed; the thumbnail is the media URL built from the reel URL with only leading characters up to U+0020 removed, so it still ends with `/media/?size=l`; the caption is the middle of the caption the parser works with |
| `InstagramParsing.ThumbnailSurvivesTrim` | src/main/java/com/example/reelsplace/api/internal/service/InstagramParsingService.java:58-59 | trimming the media URL removes only leading characters and keeps the `/media/?size=l` suffix |
| `InstagramParsing.NormalizeDropsSlash` | src/main/java/com/example/reelsplace/api/internal/service/InstagramParsingService.java:50-52 | exactly one trailing `/` is removed |
| `InstagramParsing.HostHasNoReelSegment` | src/main/java/com/example/reelsplace/api/internal/service/InstagramParsingService.java:58 | the host part of a shared reel link holds no `/reel/` for `replace` to rewrite |
| `InstagramParsing.NoSlashNoReelSegment` | src/main/java/com/example/reelsplace/api/internal/service/InstagramParsingService.java:58 | a reel code without `/` holds no `/reel/` for `replace` to rewrite |
| `InstagramParsing.ReelLinkThumbnail` | src/main/java/com/example/reelsplace/api/internal/service/InstagramParsingService.java:42-59 | a shared link `https://www.instagram.com/reel/<code>/?<query>` gives `https://www.instagram.com/p/<code>/media/?size=l` |
| `InstagramParsing.ReelLinkMetadata` | src/main/java/com/example/reelsplace/api/internal/service/InstagramParsingService.java:37-125 | for a shared reel link, the thumbnail the parser returns is that media URL, whatever the caption |
| `AddressExtraction.StripMarkers` | src/main/java/com/example/reelsplace/api/internal/service/AddressExtractionService.java:111 | `replaceAll("[#@]", "")` leaves no marker, changes a string that has none in no way, and keeps its visible text (the characters that are neither markers nor trimmable) exactly |
| `AddressExtraction.StripMarkersKeepsOthers` | src/main/java/com/example/reelsplace/api/internal/service/AddressExtractionService.java:111 | every character other than `#` and `@` is kept as many times as it occurs |
| `AddressExtraction.StripMarkersAppend` | src/main/java/com/example/reelsplace/api/internal/service/AddressExtractionService.java:111 | removing the markers works piece by piece, so the kept characters stay in order |
| `AddressExtraction.SpaceRunEnd` | src/main/java/com/example/reelsplace/api/internal/service/AddressExtractionService.java:112 | the end of a run of `\s` characters: everything skipped is `\s` and the next character is not |
| `AddressExtraction.CollapseSpaces` | src/main/java/com/example/reelsplace/api/internal/service/AddressExtractionService.java:112 | `replaceAll("\\s+", " ")` leaves every `\s` a plain space with no two adjacent, adds no marker, changes nothing in an already single-spaced string and keeps whether the string starts with a space |
| `AddressExtraction.CollapseSpacesKeeps` | src/main/java/com/example/reelsplace/api/internal/service/AddressExtractionService.java:112 | the characters other than `\s` are kept exactly and in order, and a nonempty run of `\s` alone becomes one space |
| `AddressExtraction.CollapseSpacesAppend` | src/main/java/com/example/reelsplace/api/internal/service/AddressExtractionService.java:112 | two pieces not split inside a run of `\s` are collapsed independently, so each run becomes its own single space |
| `AddressExtraction.CleanAddress` | src/main/java/com/example/reelsplace/api/internal/service/AddressExtractionService.java:109-114 | `cleanAddress` output has no `#` or `@`, no whitespace run and nothing to trim, and its visible text is exactly that of the input |
| `AddressExtraction.CleanAddressJoinsWords` | src/main/java/com/example/reelsplace/api/internal/service/AddressExtractionService.java:109-114 | two clean words separated by any nonempty run of `\s` come out joined by exactly one space |
| `AddressExtraction.CleanAddressIdempotent` | src/main/java/com/example/reelsplace/api/internal/service/AddressExtractionService.java:109-114 | cleaning an address twice is cleaning it once |
| `AddressExtraction.CategoryPrefixLength` | src/main/java/com/example/reelsplace/api/internal/service/AddressExtractionService.java:123 | positive exactly when the string starts with 카페, 맛집, 식당 or 바, and then the length of that word, which is the string's prefix of that length |
| `AddressExtraction.StripCategory` | src/main/java/com/example/reelsplace/api/internal/service/AddressExtractionService.java:123 | removing a leading category word and the spaces after it gives a suffix of the string, changes nothing without such a word, removes after the word only `\s` characters and the whole run of them, and keeps the string free of markers and single-spaced |
| `AddressExtraction.CleanPlaceName` | src/main/java/com/example/reelsplace/api/internal/service/AddressExtractionService.java:119-125 | `cleanPlaceName` output has no `#` or `@`, no whitespace run and nothing to trim; its visible text is the input's, less a leading category word, which is dropped exactly when the name without markers starts with one |
| `AddressExtraction.CategoryWordStrippedOnce` | src/main/java/com/example/reelsplace/api/internal/service/AddressExtractionService.java:119-125 | a leading category word is stripped once only: a clean name behind "카페 " comes back unchanged, even when it starts with a category word itself |
| `AddressExtraction.ValidPlaceNameIsNotBlacklisted` | src/main/java/com/example/reelsplace/api/internal/service/AddressExtractionService.java:129-144 | `isValidPlaceName` holds exactly when the name is none of the twelve blacklisted words |
| `AddressExtraction.GroupAfter` | src/main/java/com/example/reelsplace/api/internal/service/AddressExtractionService.java:22-26 | `\s*([^\n]+)` with backtracking: the captured group is non-empty, inside one line and after the start |
| `AddressExtraction.MatchAt` | src/main/java/com/example/reelsplace/api/internal/service/AddressExtractionService.java:22-26 | a label or pin match at an index captures a non-empty piece of one line after the label |
| `AddressExtraction.PrefixCaptures` | src/main/java/com/example/reelsplace/api/internal/service/AddressExtractionService.java:22-26 | repeated `find()` with a label or pin pattern: every capture is non-empty and holds no line feed |
| `AddressExtraction.GatheredContents` | src/main/java/com/example/reelsplace/api/internal/service/AddressExtractionService.java:62-76 | the gathered list holds exactly the cleaned captures of length at least 5, each once |
| `AddressExtraction.GatheredOrder` | src/main/java/com/example/reelsplace/api/internal/service/AddressExtractionService.java:62-76 | the gathered list keeps the order in which its elements first occur among the cleaned captures |
| `AddressExtraction.GatheredSpec` | src/main/java/com/example/reelsplace/api/internal/service/AddressExtractionService.java:62-76 | both: exactly the cleaned captures of length at least 5, without duplicates, in order of first occurrence |
| `AddressExtraction.Admit` | src/main/java/com/example/reelsplace/api/internal/service/AddressExtractionService.java:68-74 | one capture is cleaned and appended when it is at least 5 long and not yet in the list |
| `AddressExtraction.AdmitAll` | src/main/java/com/example/reelsplace/api/internal/service/AddressExtractionService.java:66-75 | the `while (matcher.find())` loop offers one pattern's captures in order |
| `AddressExtraction.ExtractAddresses` | src/main/java/com/example/reelsplace/api/internal/service/AddressExtractionService.java:56-80 | the result is the gathered list of the cleaned captures, pattern by pattern: no duplicates, every element at least 5 long, and a cleaned capture of length at least 5 is in it exactly when it was captured; empty for a null or blank caption |
| `AddressExtraction.LabelCaptureOfShortAddress` | src/main/java/com/example/reelsplace/api/internal/service/AddressExtractionService.java:22 | the 주소 label on "주소: 서울" captures "서울" |
| `AddressExtraction.NoPrefixNoCaptures` | src/main/java/com/example/reelsplace/api/internal/service/AddressExtractionService.java:22-26 | a label or pin that occurs nowhere captures nothing |
| `AddressExtraction.OtherLabelsAbsentFromShortAddress` | src/main/java/com/example/reelsplace/api/internal/service/AddressExtractionService.java:24-26 | neither the 위치 label nor the pin captures anything in "주소: 서울" |
| `AddressExtraction.AllCapturesOfFive` | src/main/java/com/example/reelsplace/api/internal/service/AddressExtractionService.java:65-76 | with five patterns, the captures are those of each pattern in turn |
| `AddressExtraction.ShortCaptureGathersNothing` | src/main/java/com/example/reelsplace/api/internal/service/AddressExtractionService.java:71 | the two-character capture "서울" is too short to be kept |
| `AddressExtraction.ShortLabelledAddressDropped` | src/main/java/com/example/reelsplace/api/internal/service/AddressExtractionService.java:56-80 | "주소: 서울" yields no address when the tag and general patterns find nothing in it |
| `AddressExtraction.BlankCaptionNoAddresses` | src/main/java/com/example/reelsplace/api/internal/service/AddressExtractionService.java:56-60 | a null or blank caption yields no address |
| `AddressExtraction.FirstPresent` | src/main/java/com/example/reelsplace/api/internal/service/AddressExtractionService.java:87-98 | the first pattern that offers a name: all earlier ones offer none |
| `AddressExtraction.Offers` | src/main/java/com/example/reelsplace/api/internal/service/AddressExtractionService.java:87-98 | what each name pattern offers, pattern by pattern |
| `AddressExtraction.FirstNameSpec` | src/main/java/com/example/reelsplace/api/internal/service/AddressExtractionService.java:87-101 | the name found is long enough and not blacklisted, and there is none exactly when no pattern's first match is acceptable |
| `AddressExtraction.OnlyFirstMatchCounts` | src/main/java/com/example/reelsplace/api/internal/service/AddressExtractionService.java:88-90 | only the first match of each name pattern is looked at: patterns whose first matches agree give the same name |
| `AddressExtraction.OfferedName` | src/main/java/com/example/reelsplace/api/internal/service/AddressExtractionService.java:88-97 | one pattern's turn: its first match cleaned, when that is at least 2 long and valid |
| `AddressExtraction.ExtractPlaceName` | src/main/java/com/example/reelsplace/api/internal/service/AddressExtractionService.java:81-102 | empty for a null or blank caption; otherwise the first acceptable first match, which is at least 2 long and not a blacklisted word |
| `GooglePlaces.PhotoUrl` | src/main/java/com/example/reelsplace/api/internal/service/GooglePlacesService.java:181-188 | the photo URL starts with the base URL and the fixed `/photo?maxwidth=400&photo_reference=` and ends with `&key=` and the API key |
| `GooglePlaces.PhotoUrlInjective` | src/main/java/com/example/reelsplace/api/internal/service/GooglePlacesService.java:181-188 | under one configuration, different photo references give different URLs |
| `GooglePlaces.QueriesShape` | src/main/java/com/example/reelsplace/api/internal/service/GooglePlacesService.java:124-145 | there is a query exactly when a non-blank name or address is given; an address alone gives the two category fallbacks; the list has 0, 1, 2 or 4 queries |
| `GooglePlaces.BuildQueries` | src/main/java/com/example/reelsplace/api/internal/service/GooglePlacesService.java:124-145 | the appended queries are the priority list: name and address, name, address with 카페, address with 식당 |
| `GooglePlaces.FirstUsable` | src/main/java/com/example/reelsplace/api/internal/service/GooglePlacesService.java:56-113 | the first query whose response is usable (status "OK" and a non-empty result list); all earlier ones are not |
| `GooglePlaces.Chosen` | src/main/java/com/example/reelsplace/api/internal/service/GooglePlacesService.java:94-107 | a result is chosen exactly when some query's response is usable |
| `GooglePlaces.ChosenSkipsUnusable` | src/main/java/com/example/reelsplace/api/internal/service/GooglePlacesService.java:75-92 | responses that are not usable change nothing: only the first usable one counts |
| `GooglePlaces.ImageCount` | src/main/java/com/example/reelsplace/api/internal/service/GooglePlacesService.java:161-163 | at most three images, none without photos, and otherwise as many as there are photos up to three |
| `GooglePlaces.BuildPlaceEntity` | src/main/java/com/example/reelsplace/api/internal/service/GooglePlacesService.java:150-176 | a new place with the user and the result's fields unchanged and `min(3, photos)` images, image i built from photo i with sort order i and pointing back at the place |
| `GooglePlaces.SearchPlace` | src/main/java/com/example/reelsplace/api/internal/service/GooglePlacesService.java:41-118 | null exactly when no query is usable (no call without queries); otherwise the place built from the first result of the first usable response, after trying exactly the queries up to that one |
| `Entities.Reel.constructor` | src/main/java/com/example/reelsplace/domain/entity/Reel.java:54-59 | a new reel has the given owner and URL, no thumbnail or caption, and status `PROCESSING` |
| `Entities.Reel.UpdateMetadata` | src/main/java/com/example/reelsplace/domain/entity/Reel.java:62-65 | sets the thumbnail URL and the caption; the status is unchanged |
| `Entities.Reel.UpdateStatus` | src/main/java/com/example/reelsplace/domain/entity/Reel.java:67-69 | sets the status; the metadata is unchanged |
| `Entities.PlaceImage.constructor` | src/main/java/com/example/reelsplace/domain/entity/PlaceImage.java:33-38 | the image has the given place, URL and sort order |
| `Entities.PlaceImage.SetPlace` | src/main/java/com/example/reelsplace/domain/entity/PlaceImage.java:41-43 | sets the back-reference to the place |
| `Entities.Place.constructor` | src/main/java/com/example/reelsplace/domain/entity/Place.java:59-68 | the fields as given and no images |
| `Entities.Place.AddImage` | src/main/java/com/example/reelsplace/domain/entity/Place.java:71-74 | the image is appended after the earlier ones and points back at this place |
| `Entities.UserStats.constructor` | src/main/java/com/example/reelsplace/domain/entity/UserStats.java:43-47 | a new stats row has count 0 |
| `Entities.UserStats.IncrementMapOpenCount` | src/main/java/com/example/reelsplace/domain/entity/UserStats.java:50-52 | the count becomes the Java-int successor of the old count |
| `Entities.Notifier.SendPlaceCreatedNotification` | src/main/java/com/example/reelsplace/api/reel/service/ReelProcessingService.java:64-71 | exactly one notification with the user, the reel and the place count is recorded |
| `Store.Database.constructor` | src/main/java/com/example/reelsplace/domain/entity/Reel.java:20-21 | an empty database over the given users satisfies the schema invariant (keys, owners, the two unique constraints, one stats row per user, valid links) |
| `Store.Database.FindPlace` | src/main/java/com/example/reelsplace/api/internal/service/InternalReelService.java:120-124 | `existsByUserIdAndGooglePlaceId` and `findByUserIdAndGooglePlaceId`: a place is found exactly when one with that key exists, and it has that key |
| `Store.Database.InsertReel` | src/main/java/com/example/reelsplace/api/reel/service/ReelService.java:54 | a new reel gets an unused id; nothing else changes and the schema invariant, including unique (user, reelUrl), is kept |
| `Store.Database.InsertPlace` | src/main/java/com/example/reelsplace/api/internal/service/InternalReelService.java:127 | a new place gets an unused id; nothing else changes and the schema invariant, including unique (user, googlePlaceId), is kept |
| `Store.Database.InsertReelPlace` | src/main/java/com/example/reelsplace/api/internal/service/InternalReelService.java:131-135 | the link is appended; it joins a reel and a place of the same user that both exist |
| `Store.Database.InsertStats` | src/main/java/com/example/reelsplace/api/place/service/PlaceService.java:74-76 | the user's first stats row is stored under the user's id |
| `Store.Database.DeleteReel` | src/main/java/com/example/reelsplace/domain/entity/Reel.java:34-35 | the reel is removed and, by orphan removal, exactly the links to it; the invariant is kept |
| `Store.Database.DeletePlace` | src/main/java/com/example/reelsplace/domain/entity/Place.java:43-44 | the place is removed and, by orphan removal, exactly the links to it; the invariant is kept |
| `Store.Unlinked` | src/main/java/com/example/reelsplace/domain/entity/Reel.java:34-35 | a link is kept exactly when it was there and is not selected; the list does not grow |
| `Store.UnlinkedCounts` | src/main/java/com/example/reelsplace/domain/entity/Reel.java:34-35 | each link that is not selected is kept as many times as it occurs, and each selected one not at all |
| `Store.UnlinkedAppend` | src/main/java/com/example/reelsplace/domain/entity/Reel.java:34-35 | the links kept from a list are those kept from each of its parts, so the order of the kept links is the order they had |
| `Store.DropReelKeepsLinks` | src/main/java/com/example/reelsplace/domain/entity/Reel.java:34-35 | the links that remain once a reel and its links are gone join existing reels and places of one user |
| `Store.DropPlaceKeepsLinks` | src/main/java/com/example/reelsplace/domain/entity/Place.java:43-44 | the links that remain once a place and its links are gone join existing reels and places of one user |
| `InternalReel.ParseMetadata` | src/main/java/com/example/reelsplace/api/internal/service/InternalReelService.java:43-70 | unknown reel: `REEL_NOT_FOUND`; parse failure: status `FAILED` and `INTERNAL_SERVER_ERROR`; otherwise thumbnail and caption set from the parser, status unchanged; no other reel changes |
| `InternalReel.ExtractAddresses` | src/main/java/com/example/reelsplace/api/internal/service/InternalReelService.java:76-94 | unknown reel: `REEL_NOT_FOUND`; null or blank caption: `INVALID_INPUT_VALUE`; otherwise the extractor's list for the stored caption, without duplicates and each at least 5 long |
| `InternalReel.LandedOf` | src/main/java/com/example/reelsplace/api/internal/service/InternalReelService.java:109-150 | no more results than addresses |
| `InternalReel.FailedOf` | src/main/java/com/example/reelsplace/api/internal/service/InternalReelService.java:109-150 | no more failed addresses than addresses |
| `InternalReel.LandedOrFailed` | src/main/java/com/example/reelsplace/api/internal/service/InternalReelService.java:109-150 | every address lands in exactly one of the created and failed lists, so their sizes sum to the number of addresses, and a failed address is one that did not land |
| `InternalReel.LandedIffSomeLands` | src/main/java/com/example/reelsplace/api/internal/service/InternalReelService.java:153 | a place is created exactly when some address lands |
| `InternalReel.StatusOfCreatePlaces` | src/main/java/com/example/reelsplace/api/internal/service/InternalReelService.java:152-159 | `PLACE_FOUND` exactly when some address landed, `NO_ADDRESS` exactly when there were no addresses, `PLACE_NOT_FOUND` exactly when there were addresses and none landed |
| `InternalReel.NothingFoundAllFail` | src/main/java/com/example/reelsplace/api/internal/service/InternalReelService.java:112-116 | when no search is ever usable every address fails and the status is `NO_ADDRESS` or `PLACE_NOT_FOUND` |
| `InternalReel.Links` | src/main/java/com/example/reelsplace/api/internal/service/InternalReelService.java:130-135 | one link per created place, from the reel to that place, in order |
| `InternalReel.FoundIdsMeaning` | src/main/java/com/example/reelsplace/api/internal/service/InternalReelService.java:119-128 | a provider id is among those found exactly when the search for one of the addresses found a place with it |
| `InternalReel.CreatePlaceFor` | src/main/java/com/example/reelsplace/api/internal/service/InternalReelService.java:110-149 | one address: created exactly when the search finds a place and no repository call throws; the place with that (user, googlePlaceId) is reused or saved, stored places are kept, and one link is saved for a created place and none otherwise |
| `InternalReel.CreateAll` | src/main/java/com/example/reelsplace/api/internal/service/InternalReelService.java:105-150 | after the loop: places kept, failed list and created list as the landing rule gives, each created place describing its search result, one link per created place, and no stored place that no search found |
| `InternalReel.CreatePlaces` | src/main/java/com/example/reelsplace/api/internal/service/InternalReelService.java:101-170 | unknown reel: `REEL_NOT_FOUND`; otherwise the created and failed lists, the links and the new places as in the loop, and the status derived from them; other reels and the metadata unchanged |
| `InternalReel.UpdateReelStatus` | src/main/java/com/example/reelsplace/api/internal/service/InternalReelService.java:177-185 | unknown reel: `REEL_NOT_FOUND`; otherwise the requested status, whatever the current one; nothing else changes |
| `ReelProcessing.CreateAndNotify` | src/main/java/com/example/reelsplace/api/reel/service/ReelProcessingService.java:59-75 | stages 3 and 4: the status derived from the places created, and one notification carrying their number exactly when it is positive |
| `ReelProcessing.ExtractCreateNotify` | src/main/java/com/example/reelsplace/api/reel/service/ReelProcessingService.java:44-75 | no address: stop after extraction with the status, the places and the notifications unchanged; otherwise the extracted list goes to `createPlaces` and the notification rule applies |
| `ReelProcessing.ProcessReelAsync` | src/main/java/com/example/reelsplace/api/reel/service/ReelProcessingService.java:35-82 | the stages run in order and the first failure ends the run quietly: an unknown reel or a parse failure stops at parsing (status `FAILED` for the latter); an empty address list stops after extraction, status unchanged; otherwise the status derived by `createPlaces` and a notification exactly when places were created |
| `ReelProcessing.ShortAddressCaptionStopsAfterExtract` | src/main/java/com/example/reelsplace/api/reel/service/ReelProcessingService.java:43-52 | with the service's own address patterns, a reel whose caption is only "주소: 서울" yields no address, so the run stops after extraction |
| `ReelService.ValidateReelUrl` | src/main/java/com/example/reelsplace/api/reel/service/ReelService.java:87-91 | the URL passes exactly when `instagram.com/reel/` occurs in it; otherwise `INVALID_REEL_URL` |
| `ReelService.SharedReelLinkIsValid` | src/main/java/com/example/reelsplace/api/reel/service/ReelService.java:88 | every `https://www.instagram.com/reel/...` link passes the check |
| `ReelService.SaveReel` | src/main/java/com/example/reelsplace/api/reel/service/ReelService.java:35-60 | `USER_NOT_FOUND`, then `REEL_ALREADY_EXISTS`, then `INVALID_REEL_URL`, in that order, each saving nothing; otherwise exactly one new reel, with status `PROCESSING` |
| `ReelService.DeleteReel` | src/main/java/com/example/reelsplace/api/reel/service/ReelService.java:76-82 | the owner's reel is deleted with its links; any other id gives `REEL_NOT_FOUND` and deletes nothing |
| `PlaceService.GetMyPlaces` | src/main/java/com/example/reelsplace/api/place/service/PlaceService.java:36-44 | unknown user: `USER_NOT_FOUND`; otherwise exactly the ids of the user's places |
| `PlaceService.DeletePlace` | src/main/java/com/example/reelsplace/api/place/service/PlaceService.java:51-57 | the owner's place is deleted with its links; otherwise `PLACE_NOT_FOUND` and nothing deleted |
| `PlaceService.RecordMapOpen` | src/main/java/com/example/reelsplace/api/place/service/PlaceService.java:64-83 | a place the user does not own gives `PLACE_NOT_FOUND` with stats untouched; otherwise the user's row, created at 0 when missing, goes up by one and no other user's count changes |

## Left out

- HTTP: `WebClient` calls to the Places API become the `Provider` function. Timeouts, retries and JSON decoding are not modelled; an exception is the `Thrown` outcome.
- The caption: the code as written works with one fixed caption literal (`InstagramParsingService.java:63-110`); its oEmbed/Jsoup fetch is disabled (`:111-115`). The model takes the caption as the `CaptionSource` parameter, so its properties hold for the literal and for any other caption. The disabled fetch, which returns the empty caption on failure (`:140-142`), is not modelled.
- `AddressExtraction.CollapseSpaces`: its own contract states only the shape of the result. What it keeps (the characters other than `\s`, in order, one space per run) is stated by `CollapseSpacesKeeps` and `CollapseSpacesAppend`. It stays out of the function's contract so that the proofs that use the function stay small.
- Regular expressions: the `@`-tag and general address patterns and all five place-name patterns are abstract `Matcher`s. The regex engine is not modelled; only the two label patterns and the pin pattern are written out.
- `@Async` and the thread pool: the pipeline runs as one call. Concurrent runs over the same reel are not modelled.
- `@Transactional`: rollback is not modelled. `InternalReel.ParseMetadata` keeps the `FAILED` status that the `catch` block writes (`InternalReelService.java:65-68`), as the code reads. The method then throws the unchecked `CustomException`, and under the default rollback of `@Transactional` (`:42`) that write would not persist.
- `getMyPlaces` returns the set of the user's place ids. Paging, sorting and DTO mapping are left out.
- Logging, timestamps (`createdAt`, `updatedAt`) and arithmetic on the `BigDecimal` rating are left out. The rating is carried as an opaque value.
- Null values the model does not represent: a null address list in the request, null fields in a Places result, and a null photo reference. A provider response is either usable or not.
- `InternalReel.CreatePlaces`: the number of images each new place gets is not restated in its contract. `GooglePlaces.BuildPlaceEntity` states it.
- Controllers, DTO classes, security, JWT and `GlobalExceptionHandler` are not part of this model.
- `NotificationService` is a recorder (`Notifier.sent`); the push itself is not modelled.
- `extractPlaceName` is modelled, but the pipeline never calls it. The pipeline searches with the address alone.
- `PlaceService.RecordMapOpen`: `USER_NOT_FOUND` at `PlaceService.java:72-73` cannot happen in the model. `Valid` keeps every place's owner among the users, so a user who owns the place exists.
- `ReelProcessing.ProcessReelAsync`: where the run stopped is reported as a ghost `Stage`. The Java method returns nothing and only logs.
- `getMyReels` and the other read-only listing endpoints are not part of this model.
- `JavaText.ReplaceAll` has no contract of its own. Its meaning is given by `ReplaceAllAbsent` and `ReplaceAllFirst`.
- Identity values: `Database` hands out ids from a counter. The database's identity sequence is not modelled.
