/** The geolocation cache of geo/geoLookup.go as a state machine: per-process
    memories for cities and venues that never expire, one expiring negative
    cache shared by city and venue lookups, and the two store collections.
    A lookup tries memory, then the store, then the negative cache, and only
    then the geocoding authority, whose answer is written back. The authority,
    the store's faults and the clock are parameters of each call. */
module GeoCache {
  import opened Wrappers
  import opened Text
  import opened TtlCache
  import opened Places

  // ---------------------------------------------------------------- state and environment

  /** The store collections are sequences in insertion order; a single-document
      read returns the first match. */
  datatype GeoState = GeoState(
    cityMemory: map<string, Point>,
    venueMemory: map<string, Venue>,
    negative: Cache<string, GeoError>,
    cities: seq<City>,
    venues: seq<Venue>)

  /** What one call sees of the outside world: the instant it reads the
      negative cache at, the authority's candidates for a city (by city and
      country) and for a venue (by location, city and country), the number
      parser, and whether the store fails to read or to insert. */
  datatype GeoEnv = GeoEnv(
    now: int,
    cityPlaces: (string, string) -> Result<seq<Place>, GeoError>,
    venuePlaces: (string, string, string) -> Result<seq<Place>, GeoError>,
    parse: string -> Option<real>,
    readFault: Option<string>,
    writeFault: Option<string>)

  /** Where an answer came from. `NoSource` is an answer given before any
      tier was consulted or a store read failure. */
  datatype Source = Memory | Store | NegativeCache | Authority | NoSource

  /** A city lookup can locate the city and still report that saving it
      failed; both are returned. */
  datatype CityAnswer =
    | Located(point: Point)
    | LocatedUnsaved(point: Point, reason: string)
    | NotLocated(error: GeoError)
  {
    predicate HasPoint() { Located? || LocatedUnsaved? }
  }

  datatype CityReply = CityReply(state: GeoState, answer: CityAnswer, source: Source)

  datatype VenueReply = VenueReply(state: GeoState, result: Result<Address, GeoError>, source: Source)

  // ---------------------------------------------------------------- cities

  /** A character of a name as it appears in a key: lowered, and "+" for a
      space. */
  function KeyChar(c: char): char {
    if LowerChar(c) == ' ' then '+' else LowerChar(c)
  }

  /** The memory and negative-cache key of a city: lowered city, then "+"
      and the lowered country when there is one, with every space turned
      into "+". */
  function CityKey(city: string, country: string): (r: string)
    ensures |r| == |city| + (if country == "" then 0 else 1 + |country|)
    ensures ' ' !in r
    ensures forall i :: 0 <= i < |city| ==> r[i] == KeyChar(city[i])
    ensures country != "" ==>
      && r[|city|] == '+'
      && forall i :: 0 <= i < |country| ==> r[|city| + 1 + i] == KeyChar(country[i])
  {
    var c := Lower(city);
    var k := Lower(country);
    ReplaceChar(c + (if k != "" then "+" + k else ""), ' ', '+')
  }

  /** The keys do not see case. */
  lemma CityKeyIgnoresCase(city: string, country: string)
    ensures CityKey(Lower(city), Lower(country)) == CityKey(city, country)
  {
    LowerIdempotent(city);
    LowerIdempotent(country);
  }

  /** Two different questions share a key: a city with a space and no
      country, and the city before the space in the country after it. */
  lemma CityKeyCollision()
    ensures CityKey("a b", "") == CityKey("a", "b") == "a+b"
  {
    assert Lower("a b") == "a b";
    assert Lower("a") == "a";
    assert Lower("b") == "b";
    assert "a" + "+" + "b" == "a+b";
  }

  predicate IsCity(c: City, name: string, country: string) {
    c.name == name && c.country == country
  }

  /** The store's single-document read for a city: the first document with
      exactly this name and country. */
  function FindCity(cities: seq<City>, name: string, country: string): (r: Option<City>)
    ensures r.Some? ==> r.value in cities && IsCity(r.value, name, country)
    ensures r.None? ==> forall c :: c in cities ==> !IsCity(c, name, country)
    ensures (exists c :: c in cities && IsCity(c, name, country)) ==> r.Some?
  {
    if |cities| == 0 then None
    else if IsCity(cities[0], name, country) then Some(cities[0])
    else FindCity(cities[1..], name, country)
  }

  /** The authority's answer for a city: its candidates, disambiguated. */
  function CityAuthority(city: string, country: string, env: GeoEnv): (r: Result<Point, GeoError>)
    ensures env.cityPlaces(city, country).Failure? ==> r == Failure(env.cityPlaces(city, country).error)
    ensures env.cityPlaces(city, country).Success? ==>
      r == DisambiguateCity(city, country, env.cityPlaces(city, country).value, env.parse)
  {
    match env.cityPlaces(city, country)
    case Failure(e) => Failure(e)
    case Success(places) => DisambiguateCity(city, country, places, env.parse)
  }

  /** `LookupCityCoordinates`. */
  function LookupCity(st: GeoState, city: string, country: string, env: GeoEnv): (r: CityReply)
    ensures var key := CityKey(city, country);
      key in st.cityMemory ==> r == CityReply(st, Located(st.cityMemory[key]), Memory)
    // the authority is consulted only when every earlier tier missed
    ensures r.source == Authority <==>
      && CityKey(city, country) !in st.cityMemory
      && env.readFault.None?
      && FindCity(st.cities, Lower(city), Lower(country)).None?
      && Get(st.negative, CityKey(city, country), env.now).None?
    ensures r.source == Authority ==>
      var auth := CityAuthority(Lower(city), Lower(country), env);
      && (auth.Failure? ==> r.answer == NotLocated(auth.error))
      && (auth.Success? ==> r.answer.HasPoint() && r.answer.point == auth.value)
    ensures r.source == NegativeCache ==>
      Get(st.negative, CityKey(city, country), env.now).Some?
      && r.answer == NotLocated(Get(st.negative, CityKey(city, country), env.now).value)
    ensures r.source == Store ==>
      FindCity(st.cities, Lower(city), Lower(country)).Some?
      && r.answer == Located(FindCity(st.cities, Lower(city), Lower(country)).value.geolocation)
    // a store hit is remembered and returned; a store read error is returned
    // with nothing consulted or written after it
    ensures var key := CityKey(city, country);
      var found := FindCity(st.cities, Lower(city), Lower(country));
      key !in st.cityMemory && env.readFault.None? && found.Some? ==>
        r == CityReply(st.(cityMemory := st.cityMemory[key := found.value.geolocation]), Located(found.value.geolocation), Store)
    ensures CityKey(city, country) !in st.cityMemory && env.readFault.Some? ==>
      r == CityReply(st, NotLocated(StoreFailed(env.readFault.value)), NoSource)
    // past the store: a live negative entry is the answer, and otherwise the
    // authority's failure is cached, or its point remembered and inserted
    // (a failed insert is reported beside the point)
    ensures var key := CityKey(city, country);
      key !in st.cityMemory && env.readFault.None? && FindCity(st.cities, Lower(city), Lower(country)).None? ==>
        var cached := Get(st.negative, key, env.now);
        var auth := CityAuthority(Lower(city), Lower(country), env);
        && (cached.Some? ==> r == CityReply(st, NotLocated(cached.value), NegativeCache))
        && (cached.None? && auth.Failure? ==>
              r == CityReply(st.(negative := Put(st.negative, key, auth.error, env.now)), NotLocated(auth.error), Authority))
        && (cached.None? && auth.Success? && env.writeFault.Some? ==>
              r == CityReply(st.(cityMemory := st.cityMemory[key := auth.value]),
                             LocatedUnsaved(auth.value, env.writeFault.value), Authority))
        && (cached.None? && auth.Success? && env.writeFault.None? ==>
              r == CityReply(st.(cityMemory := st.cityMemory[key := auth.value],
                                 cities := st.cities + [City(Lower(city), Lower(country), auth.value)]),
                             Located(auth.value), Authority))
    // a located city is remembered under its key
    ensures r.answer.HasPoint() ==>
      CityKey(city, country) in r.state.cityMemory && r.state.cityMemory[CityKey(city, country)] == r.answer.point
    // a failure is remembered, for the expiry window, only when it came from the authority
    ensures r.answer.NotLocated? && r.source == Authority ==>
      r.state.negative == Put(st.negative, CityKey(city, country), r.answer.error, env.now)
    ensures !(r.answer.NotLocated? && r.source == Authority) ==> r.state.negative == st.negative
    // the store only gains the city just located, and only when the insert succeeded
    ensures r.answer.Located? && r.source == Authority ==>
      r.state.cities == st.cities + [City(Lower(city), Lower(country), r.answer.point)]
    ensures !(r.answer.Located? && r.source == Authority) ==> r.state.cities == st.cities
    ensures r.state.venueMemory == st.venueMemory && r.state.venues == st.venues
  {
    var c := Lower(city);
    var k := Lower(country);
    var key := CityKey(city, country);
    if key in st.cityMemory then CityReply(st, Located(st.cityMemory[key]), Memory)
    else if env.readFault.Some? then CityReply(st, NotLocated(StoreFailed(env.readFault.value)), NoSource)
    else match FindCity(st.cities, c, k)
      case Some(found) =>
        CityReply(st.(cityMemory := st.cityMemory[key := found.geolocation]), Located(found.geolocation), Store)
      case None =>
        match Get(st.negative, key, env.now)
        case Some(e) => CityReply(st, NotLocated(e), NegativeCache)
        case None =>
          match CityAuthority(c, k, env)
          case Failure(e) =>
            CityReply(st.(negative := Put(st.negative, key, e, env.now)), NotLocated(e), Authority)
          case Success(point) =>
            var remembered := st.(cityMemory := st.cityMemory[key := point]);
            if env.writeFault.Some? then
              CityReply(remembered, LocatedUnsaved(point, env.writeFault.value), Authority)
            else
              CityReply(remembered.(cities := st.cities + [City(c, k, point)]), Located(point), Authority)
  }

  /** A city that has been located is answered from memory from then on,
      whatever the store, the authority or the clock do. */
  lemma RepeatCityLookupFromMemory(st: GeoState, city: string, country: string, env: GeoEnv, later: GeoEnv)
    requires LookupCity(st, city, country, env).answer.HasPoint()
    ensures
      var r := LookupCity(st, city, country, env);
      LookupCity(r.state, city, country, later) == CityReply(r.state, Located(r.answer.point), Memory)
  {
  }

  /** Case does not matter: a lookup behaves as the lookup of the lowered
      names. */
  lemma LookupCityIgnoresCase(st: GeoState, city: string, country: string, env: GeoEnv)
    ensures LookupCity(st, Lower(city), Lower(country), env) == LookupCity(st, city, country, env)
  {
    CityKeyIgnoresCase(city, country);
    LowerIdempotent(city);
    LowerIdempotent(country);
  }

  /** A failure from the authority suppresses further authority calls for
      the same key for the expiry window and is repeated verbatim; after the
      window the authority is asked again. */
  lemma CityFailureSuppressesAuthority(st: GeoState, city: string, country: string, env: GeoEnv, later: GeoEnv)
    requires
      var r := LookupCity(st, city, country, env);
      r.source == Authority && r.answer.NotLocated?
    requires later.readFault.None?
    ensures
      var r := LookupCity(st, city, country, env);
      && (env.now <= later.now <= env.now + DefaultTtl ==>
          LookupCity(r.state, city, country, later) == CityReply(r.state, r.answer, NegativeCache))
      && (later.now > env.now + DefaultTtl ==> LookupCity(r.state, city, country, later).source == Authority)
  {
    var r := LookupCity(st, city, country, env);
    GetAfterPut(st.negative, CityKey(city, country), r.answer.error, env.now, later.now, CityKey(city, country) + "+");
  }

  /** A city already in the store is never looked up at the authority. */
  lemma SeededCityStoreAvoidsAuthority(st: GeoState, city: string, country: string, env: GeoEnv)
    requires env.readFault.None?
    requires exists c :: c in st.cities && IsCity(c, Lower(city), Lower(country))
    ensures
      var r := LookupCity(st, city, country, env);
      r.source in {Memory, Store} && r.answer.Located? && r.state.cities == st.cities
  {
  }

  /** `AllMatchesCityCoordinates`'s filter: the name always, the country
      only when one is given. */
  predicate MatchesCity(c: City, name: string, country: string) {
    c.name == name && (country == "" || c.country == country)
  }

  function PointsOfMatches(cities: seq<City>, name: string, country: string): (r: seq<Point>)
    ensures |r| <= |cities|
    ensures forall p :: p in r <==> exists c :: c in cities && MatchesCity(c, name, country) && c.geolocation == p
  {
    if |cities| == 0 then []
    else
      (if MatchesCity(cities[0], name, country) then [cities[0].geolocation] else [])
        + PointsOfMatches(cities[1..], name, country)
  }

  /** `AllMatchesCityCoordinates`: every stored location of a city name,
      read straight from the store and leaving the caches alone (it returns
      no new state). */
  function AllCityMatches(st: GeoState, city: string, country: string, env: GeoEnv): (r: Result<seq<Point>, GeoError>)
    ensures env.readFault.Some? <==> r.Failure?
    ensures r.Failure? ==> r.error == StoreFailed(env.readFault.value)
    ensures r.Success? ==> forall p :: p in r.value <==>
      exists c :: c in st.cities && MatchesCity(c, Lower(city), Lower(country)) && c.geolocation == p
  {
    if env.readFault.Some? then Failure(StoreFailed(env.readFault.value))
    else Success(PointsOfMatches(st.cities, Lower(city), Lower(country)))
  }

  /** Leaving the country out finds at least what naming one finds. */
  lemma AllCityMatchesWithoutCountry(st: GeoState, city: string, country: string, env: GeoEnv)
    requires env.readFault.None?
    ensures forall p :: p in AllCityMatches(st, city, country, env).value ==> p in AllCityMatches(st, city, "", env).value
  {
    assert Lower("") == "";
  }

  /** A city located and saved through the authority is listed by the
      all-matches read, with or without its country. */
  lemma SavedCityIsListed(st: GeoState, city: string, country: string, env: GeoEnv, later: GeoEnv)
    requires
      var r := LookupCity(st, city, country, env);
      r.source == Authority && r.answer.Located?
    requires later.readFault.None?
    ensures
      var r := LookupCity(st, city, country, env);
      && r.answer.point in AllCityMatches(r.state, city, country, later).value
      && r.answer.point in AllCityMatches(r.state, city, "", later).value
  {
    var r := LookupCity(st, city, country, env);
    var saved := City(Lower(city), Lower(country), r.answer.point);
    assert saved == r.state.cities[|r.state.cities| - 1];
    assert saved in r.state.cities;
    assert Lower("") == "";
    assert MatchesCity(saved, Lower(city), Lower(country));
    assert MatchesCity(saved, Lower(city), Lower(""));
  }

  // ---------------------------------------------------------------- venues

  /** The memory and negative-cache key of a venue: lowered location and
      city joined by "+", then "+" and the lowered country when there is
      one, with every space turned into "+". */
  function VenueKey(location: string, city: string, country: string): (r: string)
    ensures |r| == |location| + 1 + |city| + (if country == "" then 0 else 1 + |country|)
    ensures ' ' !in r
    ensures forall i :: 0 <= i < |location| ==> r[i] == KeyChar(location[i])
    ensures r[|location|] == '+'
    ensures forall i :: 0 <= i < |city| ==> r[|location| + 1 + i] == KeyChar(city[i])
    ensures country != "" ==>
      && r[|location| + 1 + |city|] == '+'
      && forall i :: 0 <= i < |country| ==> r[|location| + 2 + |city| + i] == KeyChar(country[i])
  {
    ReplaceChar(Lower(location) + "+" + Lower(city) + (if country != "" then "+" + Lower(country) else ""), ' ', '+')
  }

  lemma VenueKeyIgnoresCase(location: string, city: string, country: string)
    ensures VenueKey(Lower(location), Lower(city), Lower(country)) == VenueKey(location, city, country)
  {
    LowerIdempotent(location);
    LowerIdempotent(city);
    LowerIdempotent(country);
  }

  /** The store filter for a venue, on the names exactly as given: name,
      locality, and the country only when one is given. */
  predicate IsVenue(v: Venue, location: string, city: string, country: string) {
    v.name == location && v.address.locality == city && (country == "" || v.address.country == country)
  }

  function FindVenue(venues: seq<Venue>, location: string, city: string, country: string): (r: Option<Venue>)
    ensures r.Some? ==> r.value in venues && IsVenue(r.value, location, city, country)
    ensures r.None? <==> forall v :: v in venues ==> !IsVenue(v, location, city, country)
  {
    if |venues| == 0 then None
    else if IsVenue(venues[0], location, city, country) then Some(venues[0])
    else FindVenue(venues[1..], location, city, country)
  }

  /** The authority's answer for a venue: its candidates, with the first
      qualifying one selected. */
  function VenueAuthority(location: string, city: string, country: string, env: GeoEnv): (r: Result<Venue, GeoError>)
    ensures env.venuePlaces(location, city, country).Failure? ==> r == Failure(env.venuePlaces(location, city, country).error)
    ensures env.venuePlaces(location, city, country).Success? ==>
      r == SelectVenue(location, city, env.venuePlaces(location, city, country).value, env.parse)
  {
    match env.venuePlaces(location, city, country)
    case Failure(e) => Failure(e)
    case Success(places) => SelectVenue(location, city, places, env.parse)
  }

  /** `LookupVenueLocation`. */
  function LookupVenue(st: GeoState, location: string, city: string, country: string, env: GeoEnv): (r: VenueReply)
    ensures location == "" || city == "" ==> r == VenueReply(st, Failure(MissingVenueQuery), NoSource)
    ensures location != "" && city != "" && VenueKey(location, city, country) in st.venueMemory ==>
      r == VenueReply(st, Success(st.venueMemory[VenueKey(location, city, country)].address), Memory)
    ensures r.source == Authority <==>
      && location != "" && city != ""
      && VenueKey(location, city, country) !in st.venueMemory
      && env.readFault.None?
      && FindVenue(st.venues, location, city, country).None?
      && Get(st.negative, VenueKey(location, city, country), env.now).None?
    ensures r.source == Authority ==>
      var auth := VenueAuthority(location, city, country, env);
      && (auth.Failure? ==> r.result == Failure(auth.error))
      && (auth.Success? && env.writeFault.None? ==> r.result == Success(auth.value.address))
      && (auth.Success? && env.writeFault.Some? ==> r.result == Failure(InsertFailed(env.writeFault.value)))
    ensures r.source == Store ==>
      FindVenue(st.venues, location, city, country).Some?
      && r.result == Success(FindVenue(st.venues, location, city, country).value.address)
    ensures var key := VenueKey(location, city, country);
      var found := FindVenue(st.venues, location, city, country);
      location != "" && city != "" && key !in st.venueMemory && env.readFault.None? && found.Some? ==>
        r == VenueReply(st.(venueMemory := st.venueMemory[key := found.value]), Success(found.value.address), Store)
    ensures location != "" && city != "" && VenueKey(location, city, country) !in st.venueMemory && env.readFault.Some? ==>
      r == VenueReply(st, Failure(StoreFailed(env.readFault.value)), NoSource)
    ensures r.source == NegativeCache ==>
      Get(st.negative, VenueKey(location, city, country), env.now).Some?
      && r.result == Failure(Get(st.negative, VenueKey(location, city, country), env.now).value)
    // past the store: a live negative entry is the answer, and otherwise the
    // authority's failure is cached, or its venue remembered and inserted
    // (a failed insert is the answer, with the venue still remembered)
    ensures var key := VenueKey(location, city, country);
      location != "" && city != "" && key !in st.venueMemory && env.readFault.None?
      && FindVenue(st.venues, location, city, country).None? ==>
        var cached := Get(st.negative, key, env.now);
        var auth := VenueAuthority(location, city, country, env);
        && (cached.Some? ==> r == VenueReply(st, Failure(cached.value), NegativeCache))
        && (cached.None? && auth.Failure? ==>
              r == VenueReply(st.(negative := Put(st.negative, key, auth.error, env.now)), Failure(auth.error), Authority))
        && (cached.None? && auth.Success? && env.writeFault.Some? ==>
              r == VenueReply(st.(venueMemory := st.venueMemory[key := auth.value]),
                              Failure(InsertFailed(env.writeFault.value)), Authority))
        && (cached.None? && auth.Success? && env.writeFault.None? ==>
              r == VenueReply(st.(venueMemory := st.venueMemory[key := auth.value], venues := st.venues + [auth.value]),
                              Success(auth.value.address), Authority))
    // a successful answer is remembered; so is a venue whose saving failed
    ensures r.result.Success? ==>
      var key := VenueKey(location, city, country);
      key in r.state.venueMemory && r.state.venueMemory[key].address == r.result.value
    ensures r.source == Authority && VenueAuthority(location, city, country, env).Success? ==>
      r.state.venueMemory == st.venueMemory[VenueKey(location, city, country) := VenueAuthority(location, city, country, env).value]
    ensures r.source == Authority && VenueAuthority(location, city, country, env).Failure? ==>
      r.state.negative == Put(st.negative, VenueKey(location, city, country), r.result.error, env.now)
    ensures !(r.source == Authority && VenueAuthority(location, city, country, env).Failure?) ==>
      r.state.negative == st.negative
    ensures r.source == Authority && r.result.Success? ==>
      r.state.venues == st.venues + [VenueAuthority(location, city, country, env).value]
    ensures !(r.source == Authority && r.result.Success?) ==> r.state.venues == st.venues
    ensures r.state.cityMemory == st.cityMemory && r.state.cities == st.cities
  {
    if location == "" || city == "" then VenueReply(st, Failure(MissingVenueQuery), NoSource)
    else
      var key := VenueKey(location, city, country);
      if key in st.venueMemory then VenueReply(st, Success(st.venueMemory[key].address), Memory)
      else if env.readFault.Some? then VenueReply(st, Failure(StoreFailed(env.readFault.value)), NoSource)
      else match FindVenue(st.venues, location, city, country)
        case Some(found) =>
          VenueReply(st.(venueMemory := st.venueMemory[key := found]), Success(found.address), Store)
        case None =>
          match Get(st.negative, key, env.now)
          case Some(e) => VenueReply(st, Failure(e), NegativeCache)
          case None =>
            match VenueAuthority(location, city, country, env)
            case Failure(e) =>
              VenueReply(st.(negative := Put(st.negative, key, e, env.now)), Failure(e), Authority)
            case Success(venue) =>
              var remembered := st.(venueMemory := st.venueMemory[key := venue]);
              if env.writeFault.Some? then
                VenueReply(remembered, Failure(InsertFailed(env.writeFault.value)), Authority)
              else
                VenueReply(remembered.(venues := st.venues + [venue]), Success(venue.address), Authority)
  }

  /** Once the authority has found a venue it is answered from memory,
      including when saving it failed and the first call reported an
      error. */
  lemma RepeatVenueLookupFromMemory(st: GeoState, location: string, city: string, country: string, env: GeoEnv, later: GeoEnv)
    requires
      var r := LookupVenue(st, location, city, country, env);
      r.result.Success? || (r.source == Authority && VenueAuthority(location, city, country, env).Success?)
    ensures
      var r := LookupVenue(st, location, city, country, env);
      var v := r.state.venueMemory[VenueKey(location, city, country)];
      LookupVenue(r.state, location, city, country, later) == VenueReply(r.state, Success(v.address), Memory)
  {
  }

  /** A venue saved with the locality and country that were asked for is
      found in the store by a process that starts with empty memories. */
  lemma SavedVenueFoundAfterRestart(st: GeoState, location: string, city: string, country: string, env: GeoEnv, later: GeoEnv)
    requires
      var r := LookupVenue(st, location, city, country, env);
      r.source == Authority && r.result.Success?
    requires IsVenue(VenueAuthority(location, city, country, env).value, location, city, country)
    requires later.readFault.None?
    ensures
      var r := LookupVenue(st, location, city, country, env);
      var restarted := r.state.(cityMemory := map[], venueMemory := map[], negative := map[]);
      LookupVenue(restarted, location, city, country, later).source == Store
      && LookupVenue(restarted, location, city, country, later).result == r.result
  {
    var r := LookupVenue(st, location, city, country, env);
    var v := VenueAuthority(location, city, country, env).value;
    FindVenueAppend(st.venues, v, location, city, country);
  }

  lemma {:induction false} FindVenueAppend(venues: seq<Venue>, v: Venue, location: string, city: string, country: string)
    requires FindVenue(venues, location, city, country).None?
    requires IsVenue(v, location, city, country)
    ensures FindVenue(venues + [v], location, city, country) == Some(v)
    decreases |venues|
  {
    if |venues| > 0 {
      assert (venues + [v])[1..] == venues[1..] + [v];
      assert !IsVenue(venues[0], location, city, country);
      FindVenueAppend(venues[1..], v, location, city, country);
    } else {
      assert venues + [v] == [v];
    }
  }

  /** The negative cache is shared: when the authority could not locate the
      city "a b" without a country, a venue lookup for "a" in "b" within the
      expiry window is answered with that city error, without asking the
      authority about the venue. */
  lemma CityFailureAnswersVenueLookup(st: GeoState, env: GeoEnv, later: GeoEnv)
    requires
      var r := LookupCity(st, "a b", "", env);
      r.source == Authority && r.answer.NotLocated?
    requires "a+b" !in st.venueMemory
    requires later.readFault.None? && FindVenue(st.venues, "a", "b", "").None?
    requires env.now <= later.now <= env.now + DefaultTtl
    ensures
      var r := LookupCity(st, "a b", "", env);
      LookupVenue(r.state, "a", "b", "", later) == VenueReply(r.state, Failure(r.answer.error), NegativeCache)
  {
    CityKeyCollision();
    assert Lower("a") == "a";
    assert Lower("b") == "b";
    assert VenueKey("a", "b", "") == "a+b";
    var r := LookupCity(st, "a b", "", env);
    GetAfterPut(st.negative, "a+b", r.answer.error, env.now, later.now, "a");
  }
}
