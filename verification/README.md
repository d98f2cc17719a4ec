# Caching resolvers of the event API, in Dafny

The event API enriches concert events with two kinds of derived data, each
behind a layered cache:

- **Geolocation** (geo/geoLookup.go). A city, or a venue in a city, is
  resolved to a GeoJSON point. The lookup tries, in order:
  - a per-process memory map that never expires;
  - the `cities` or `venues` store collection;
  - a negative cache that remembers the geocoding authority's (Nominatim's)
    failures for ten minutes;
  - the authority itself. Its answer is written back to memory and to the
    store.

  Two decision procedures pick the answer from the authority's candidates:
  - city disambiguation: at most two candidates, localities only, the
    importance threshold, and one country;
  - venue selection: the first amenity of an allowed kind, with the locality
    fallback.
- **Genres** (genre/genreLookup.go). An event's genres come first from its
  free-text genre description. The text is matched, as n-grams of up to four
  tokens, against a genre vocabulary. Only if that finds nothing are the
  event title's artists resolved one by one, each through:
  - an expiring memory cache;
  - the `genres` collection;
  - the music-search authority (Spotify), which is behind an OAuth token
    that is renewed when it expires.

The model is a set of pure functions over immutable state. Every lookup
takes the cache state and an environment, and returns the new state with its
answer. The environment holds:
- the instant of the call;
- the authorities' replies, as functions;
- store read and insert faults;
- a number parser.

The five literal test cases of genre/genreLookup_test.go are proved as
lemmas about the model.

Modules:
- `Wrappers`: `Option` and `Result`.
- `Text`: the parts of Go's `strings` package the resolvers use.
- `TtlCache`: the expiring cache.
- `GenreText`: genre extraction and artist splitting.
- `GenreExamples`: the test cases.
- `GenreCache`: token, search, store and lookup.
- `Places`: the authority's candidates.
- `GeoCache`: the city and venue lookups.

Behaviour of the code that the lemmas make explicit:
- **City key collision.** The city key joins city and country with "+" and
  turns spaces into "+". So the city "a b" with no country and the city "a"
  in the country "b" share the key `a+b`. The second of them is answered
  from memory with the first one's point (`GeoCache.CityKeyCollision`).
- **Shared negative cache.** City and venue keys live in one negative cache.
  The authority's failure on the city "a b" therefore answers a venue lookup
  for "a" in "b" without consulting the authority
  (`GeoCache.CityFailureAnswersVenueLookup`).
- **Venue keys ignore case; store filter does not.** Venue keys are lowered,
  but the venue store filter compares location, city and country exactly as
  given. The filter also compares against the locality the authority
  reported. So a saved venue is found again only when that locality equals
  the city asked for (`GeoCache.SavedVenueFoundAfterRestart` states the
  condition).
- **Venue remembered despite a failed insert.** The venue is put into memory
  before the store insert. When the insert fails, the call reports an error,
  yet the next call answers from memory
  (`GeoCache.RepeatVenueLookupFromMemory`).
- **City insert failure.** A failed city insert returns the point together
  with the error (`GeoCache.CityAnswer.LocatedUnsaved`).
- **Genre scan stops early.** At each position the genre scan extends the
  n-gram while it keeps hitting the vocabulary. It stops at the first miss
  after a hit and keeps the last hit. This is not the longest hit: with
  "jazz" and "jazz and is" both in the vocabulary, "jazz and is" would not be
  found, because "jazz and" misses. `GenreText.ScanSound` and
  `GenreText.ScanUnique` characterise this rule completely.
- **Token lifetime in seconds.** The token's `expires_in` is counted in
  seconds (genre/genreLookup.go:116), although its field comment says
  minutes. The renewed token expires one second before the advertised
  lifetime.

## Model

| member | source | states |
|---|---|---|
| Text.TrimSpace | genre/genreLookup.go:208 | the trimmed artist segment is the infix of the segment with only white space before and after it, and neither starts nor ends with white space; an all-white-space segment trims to empty |
| Text.JoinSplit | genre/genreLookup.go:173-176 | joining the pieces of a split with the same separator gives back the text, so tokenising loses nothing |
| Text.SplitJoin | genre/genreLookup.go:173-176 | splitting a single-space join of space-free words gives back the words |
| TtlCache.GetAfterPut | geo/geoLookup.go:52 | a value written with the ten-minute default expiry is read back for the whole window and is gone after it; other keys are unaffected |
| GenreText.DropUnkept | genre/genreLookup.go:172 | only lower-case letters, digits and spaces survive, every such character of the input does, and a single character is kept or deleted on its own |
| GenreText.DropUnkeptCounts | genre/genreLookup.go:172 | each kept character survives exactly as often as it occurs in the input, and no other character survives |
| GenreText.DropUnkeptAppend | genre/genreLookup.go:172 | the deletion distributes over concatenation, so with the single-character rule the survivors keep their order |
| GenreText.TokensAreAlphanumeric | genre/genreLookup.go:171-173 | every token consists of lower-case ASCII letters and digits only |
| GenreText.TokensOfWords | genre/genreLookup.go:171-173 | the tokens of a text of space-separated words are the words normalised one by one, so normalisation never moves a token boundary |
| GenreText.ExtendSound | genre/genreLookup.go:175-186 | the inner loop at a position returns no hit exactly when no candidate of one to four tokens there is a vocabulary entry, and otherwise the last hit of the first run of hits there, ended by a miss, the four-token limit or the end of the text, with the position after it |
| GenreText.ScanSound | genre/genreLookup.go:174-190 | the scan's matches are ordered and non-overlapping; each is the last hit of the first run of vocabulary hits at its start, ended by the first miss; no position the scan passed over has a hit |
| GenreText.ScanUnique | genre/genreLookup.go:174-190 | any match list meeting that declarative description is the scan's own, so the description determines the result |
| GenreText.ScanMatches | genre/genreLookup.go:174-190 | each match spans one to four tokens within the text, is a non-empty vocabulary entry equal to those tokens joined by spaces, and starts at or after the end of the previous one |
| GenreText.ExtractedGenresInVocabulary | genre/genreLookup.go:168-197 | every extracted genre is a non-empty vocabulary entry; an empty vocabulary yields none |
| GenreText.ArtistsWellFormed | genre/genreLookup.go:204-214 | every artist name is non-empty, trimmed, lower-case and free of commas |
| GenreText.DropEmptyInOrder | genre/genreLookup.go:206-213 | the compaction loop keeps exactly the non-empty segments, in their original order |
| GenreText.ArtistsInOrder | genre/genreLookup.go:204-214 | the artists are exactly the trimmed non-blank comma-separated segments of the lowered title, in order of appearance |
| GenreExamples.Case1 | genre/genreLookup_test.go:25-28 | the first description yields exactly elektro, tech house and techno |
| GenreExamples.Case2 | genre/genreLookup_test.go:40-43 | the words join to "This band pays jazz fusion", which yields exactly jazz fusion |
| GenreExamples.Case3 | genre/genreLookup_test.go:55-58 | the words join to "This band pays jazz", which yields exactly jazz |
| GenreExamples.Case4 | genre/genreLookup_test.go:70-73 | the words join to "This band pays jazz and is cool", which yields exactly jazz |
| GenreExamples.Case5 | genre/genreLookup_test.go:85-88 | the fifth description yields exactly deep house, disco, elektro and tech house |
| GenreCache.RenewToken | genre/genreLookup.go:82-119 | a valid token is kept; a due renewal without credentials is an error; with credentials it is exactly the token request's outcome: its error, or the state with the reply's token and an expiry one second short of its lifetime; caches are untouched |
| GenreCache.RenewedTokenStaysFresh | genre/genreLookup.go:84-116 | a renewed token is not renewed again before its expiry, so renewing twice is renewing once |
| GenreCache.MatchGenres | genre/genreLookup.go:142-148 | the genres of the first item named like the artist up to case, or the empty list when none is |
| GenreCache.MatchGenresIgnoresCase | genre/genreLookup.go:142-148 | the matched genres are the same for any two spellings of the artist that differ only in case |
| GenreCache.QueryGenresIgnoresCase | genre/genreLookup.go:121-149 | two spellings of an artist equal up to ASCII case send the same lowered search and select the same genres from its reply |
| GenreCache.WriteStore | genre/genreLookup.go:217-220 | an insert adds at most the lowered artist and never alters an existing document; a failed insert is ignored |
| GenreCache.ResolveArtist | genre/genreLookup.go:231-265 | a live cache entry answers; a store answer is cached and returned with the token and store left alone; after a store miss a failed token renewal or search fails the step, and otherwise the matched genres are returned, cached and written to the store under the renewed token; errors leave memory and store alone; the store only grows |
| GenreCache.ResolveAll | genre/genreLookup.go:231-265 | a successful loop answers the artists in order, each live in memory afterwards; the store grows only by their lowered names; a search answer implies the store had none |
| GenreCache.ResolveAllStep | genre/genreLookup.go:231-259 | a failing step ends the loop with that step's error and state; after a successful step the loop fails exactly when the rest of it does, with the rest's error and state, and otherwise answers the step's answer followed by the rest's answers |
| GenreCache.ResolveAllAppend | genre/genreLookup.go:231-265 | the loop over two artist lists in a row is the loop over the first, which ends everything if it fails, and otherwise the loop over the second from the state the first left |
| GenreCache.LookupGenres | genre/genreLookup.go:222-274 | switched off it answers nothing and changes nothing; genres found in the text are the whole answer; otherwise the artists are resolved, and the first error is the answer with no genres, else the union of their genres |
| GenreCache.AllLiveServedFromMemory | genre/genreLookup.go:232-238 | when every artist is live in memory the loop answers from memory and changes nothing |
| GenreCache.RepeatResolveFromMemory | genre/genreLookup.go:231-265 | repeating a successful resolution at the same instant is answered entirely from memory |
| GenreCache.SeededStoreSearchesNothing | genre/genreLookup.go:241-248 | when memory or store can answer for every artist, no search is made |
| GenreCache.ResolveArtistKeepsCoherence | genre/genreLookup.go:241-263 | with reliable reads and inserts, every cached artist keeps the genres its stored document holds |
| GenreCache.ResolveAllKeepsCoherence | genre/genreLookup.go:231-265 | the same coherence holds across the whole artist loop |
| GenreCache.LookupAnswerIsCachedGenres | genre/genreLookup.go:229-270 | an artist-based answer is exactly the union of the genres cached for the title's artists |
| Places.CountryOf | geo/geoLookup.go:188-189 | the country is the display name when it has no ", ", and otherwise what follows a final ", ", containing no ", " itself |
| Places.AcceptedPlacesByPosition | geo/geoLookup.go:178-193 | the kept candidates are exactly the first and second candidates that pass the acceptance rule, in order |
| Places.OnlyFirstTwoCandidatesMatter | geo/geoLookup.go:179-180 | candidates after the second never change the outcome |
| Places.PointOf | geo/geoLookup.go:196-207 | a point exists exactly when both coordinates parse; a bad longitude is reported before a bad latitude |
| Places.BothAccepted | geo/geoLookup.go:184-209 | when both candidates are accepted, different countries give "ambiguous" naming both countries, and one shared country gives the first candidate's point |
| Places.DisambiguateCityOutcome | geo/geoLookup.go:178-212 | no accepted candidate gives "no relevant coordinates"; two accepted candidates from different countries give "ambiguous" with both countries; otherwise the first accepted candidate's point |
| Places.Locality | geo/geoLookup.go:342-351 | the locality is the candidate's city, else its town, else its village, else the city asked for; it is empty only if all four are |
| Places.VenueOf | geo/geoLookup.go:353-373 | the venue carries the caller's location as its name, the candidate's type, the fallback locality, the candidate's country, state, postcode, road and house number, and the parsed point |
| Places.FirstQualifying | geo/geoLookup.go:313-321 | the position of the first amenity of an allowed kind, with none before it |
| Places.SelectVenue | geo/geoLookup.go:313-381 | "no relevant venue" exactly when no candidate qualifies; otherwise the first qualifying candidate decides: a coordinate of it that does not parse is the error, and else the venue is built from it |
| Places.SelectVenueIgnoresNonQualifying | geo/geoLookup.go:313-321 | removing non-qualifying candidates changes neither the venue nor the error |
| GeoCache.CityKey | geo/geoLookup.go:62-68 | the key is the city's characters lowered with "+" for a space, then, when a country is given, "+" and the country's characters likewise |
| GeoCache.CityKeyIgnoresCase | geo/geoLookup.go:62-68 | the key is the same for any spelling that lowers to the same names |
| GeoCache.CityKeyCollision | geo/geoLookup.go:64-68 | the city "a b" without a country and the city "a" in "b" share the key "a+b" |
| GeoCache.FindCity | geo/geoLookup.go:79-83 | the store read finds a document with exactly the lowered name and country whenever one exists |
| GeoCache.LookupCity | geo/geoLookup.go:59-117 | memory answers first; a store read error is returned with nothing else consulted or written; a store hit is remembered and returned; past the store a live negative entry is returned unchanged; the authority is asked exactly when memory, store and negative cache all miss; its failure is returned and cached with nothing else changed, and its point is remembered and returned, inserted as the lowered city and country or reported beside the insert error; only authority failures enter the negative cache; the store gains only a successfully inserted city |
| GeoCache.RepeatCityLookupFromMemory | geo/geoLookup.go:71-76 | once located, a city is answered from memory whatever the store, authority or clock do |
| GeoCache.LookupCityIgnoresCase | geo/geoLookup.go:62-63 | a lookup behaves exactly as the lookup of the lowered names |
| GeoCache.CityFailureSuppressesAuthority | geo/geoLookup.go:87-99 | an authority failure is repeated from the negative cache for ten minutes; after that the authority is asked again |
| GeoCache.SeededCityStoreAvoidsAuthority | geo/geoLookup.go:78-116 | a city in the store is answered without the authority and without changing the store |
| GeoCache.PointsOfMatches | geo/geoLookup.go:139-143 | exactly the points of stored cities with the name, and with the country when one is given |
| GeoCache.AllCityMatches | geo/geoLookup.go:119-145 | a read failure is an error; otherwise every stored point of the lowered name and optional country; no cache is consulted or changed |
| GeoCache.AllCityMatchesWithoutCountry | geo/geoLookup.go:126-130 | leaving out the country finds at least what naming one finds |
| GeoCache.SavedCityIsListed | geo/geoLookup.go:102-145 | a city located and saved through the authority is listed by the all-matches read, with or without its country |
| GeoCache.VenueKey | geo/geoLookup.go:229-233 | the key is the location's characters lowered with "+" for a space, "+", the city's likewise, and, when a country is given, "+" and the country's likewise |
| GeoCache.VenueKeyIgnoresCase | geo/geoLookup.go:229-233 | the key is the same for any spelling that lowers to the same names |
| GeoCache.FindVenue | geo/geoLookup.go:244-251 | the store read finds a venue with exactly the given name and locality, and the country when one is given, whenever one exists |
| GeoCache.LookupVenue | geo/geoLookup.go:225-286 | a missing location or city is an error that changes nothing; memory answers first; a store read error is returned with nothing else consulted or written; a store hit is remembered and returned; past the store a live negative entry is returned unchanged; the authority is asked exactly when all other tiers miss; its failure is returned and cached with nothing else changed; a found venue is remembered and inserted, or remembered even when its insert fails, which is then the error |
| GeoCache.RepeatVenueLookupFromMemory | geo/geoLookup.go:236-241 | once the authority has found a venue, later calls are answered from memory, even after a failed insert |
| GeoCache.FindVenueAppend | geo/geoLookup.go:244-251 | a matching venue appended to a store without a match is the one the read finds |
| GeoCache.SavedVenueFoundAfterRestart | geo/geoLookup.go:244-285 | a saved venue whose locality and country match the query is found in the store by a process with empty memories |
| GeoCache.CityFailureAnswersVenueLookup | geo/geoLookup.go:256-259 | within ten minutes of the authority failing on the city "a b", a venue lookup for "a" in "b" returns that city error from the negative cache |

## Left out

- HTTP requests, URL encoding, status codes and JSON decoding. The authorities are functions from query to candidates or error. So the city query's non-200 check and the venue query's lack of one are not distinguished.
- `strconv.ParseFloat`: a parameter that may fail; coordinates are `real`.
- Places.DisambiguateCity: the importance score is the boolean "greater than 0.4" and is not compared as a float.
- Locks, goroutines and the context timeouts. Every call is atomic here, so it also does not matter that the venue memory is read under the city lock.
- The go-cache janitor that sweeps expired entries: reads never see them anyway.
- Clock reads: each call reads the clock once, as an integer nanosecond count. Instant arithmetic does not model int64 overflow.
- The regular expression that rewrites artist separators to commas: `ExtractArtists` takes the rewriting as a parameter.
- Text.Lower: non-ASCII letters keep their case, except the two characters that Go lowers to ASCII letters.
- Text.EqualFold: folds ASCII letters only; Go's Unicode simple folding is not modelled.
- Logging, loading the genre vocabulary file and reading the feature switch from the environment. The vocabulary and the switch are inputs.
- Genre lists: nil and empty are the same sequence. The store read returns the stored list, which an empty list from the search also is.
- Store documents with duplicate keys: reads return the first matching document in insertion order.
- GenreExamples.Case1: the text is written as a word list whose single-space join is the test's literal text; that join is not proved, being too costly for the two long texts. Extracted genres form a set, which matches the tests' order-insensitive comparison.
- GenreExamples.Case5: as Case1, the text is a word list whose join to the literal is not proved.
- ResolveAll: its own contract speaks of a successful loop; the failure rule is stated by ResolveAllStep and ResolveAllAppend.
- The exported wrappers `LookupGenres`, `InitGenreCache` and `InitGeolocCache` that only delegate or construct the caches.
