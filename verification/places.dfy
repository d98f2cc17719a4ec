/** The two decision procedures of geo/geoLookup.go that turn a geocoding
    authority's candidate list into an answer: city disambiguation and venue
    selection. Candidates keep their coordinates as the text the authority
    sent; turning text into a number is the parameter `parse`, which answers
    `None` where `strconv.ParseFloat` fails. */
module Places {
  import opened Wrappers
  import opened Text

  // ---------------------------------------------------------------- data

  datatype PlaceAddress = PlaceAddress(
    houseNumber: string,
    road: string,
    city: string,
    town: string,
    village: string,
    state: string,
    postcode: string,
    country: string)

  /** One candidate of an authority response. `importantEnough` is the
      comparison of the candidate's importance score with 0.4. */
  datatype Place = Place(
    addressType: string,
    placeType: string,
    displayName: string,
    importantEnough: bool,
    lon: string,
    lat: string,
    address: PlaceAddress)

  /** A GeoJSON point, longitude first. */
  datatype Point = Point(geoJsonType: string, lon: real, lat: real)

  datatype Address = Address(
    locality: string,
    country: string,
    state: string,
    postCode: string,
    street: string,
    houseNumber: string,
    geolocation: Point)

  datatype Venue = Venue(name: string, venueType: string, address: Address)

  datatype City = City(name: string, country: string, geolocation: Point)

  datatype GeoError =
    | AuthorityFailed(reason: string)
    | InvalidNumber(text: string)
    | Ambiguous(city: string, countries: set<string>)
    | NoRelevantCoordinates(city: string, country: string)
    | NoRelevantVenue(location: string, city: string)
    | MissingVenueQuery
    | StoreFailed(reason: string)
    | InsertFailed(reason: string)

  // ---------------------------------------------------------------- city disambiguation

  /** `isValidLocalityAddressType`. */
  predicate IsValidLocalityType(addressType: string) {
    addressType in {"city", "town", "village", "county"}
  }

  /** The country of a candidate: the last ", "-separated part of its
      display name (the whole name when it has no such separator). */
  function CountryOf(displayName: string): (r: string)
    ensures !Contains(r, ", ")
    ensures !Contains(displayName, ", ") ==> r == displayName
    ensures r == displayName
      || (|r| + 2 <= |displayName| && displayName[|displayName| - |r| - 2..] == ", " + r)
  {
    var parts := Split(displayName, ", ");
    SplitPiecesAvoidSeparator(displayName, ", ");
    SplitWithoutSeparator(displayName, ", ");
    SplitLastPiece(displayName, ", ");
    parts[|parts| - 1]
  }

  /** The acceptance rule, read position by position: only the first two
      candidates are looked at, and one is accepted when it is a locality
      and is important enough or was the only candidate returned. */
  predicate Accepted(places: seq<Place>, i: nat) {
    && i < |places| && i < 2
    && IsValidLocalityType(places[i].addressType)
    && (places[i].importantEnough || |places| == 1)
  }

  /** The filtering loop over the examined window, keeping candidates in
      order. */
  function KeepLocalities(window: seq<Place>, single: bool): (r: seq<Place>)
    ensures |r| <= |window|
    ensures forall p :: p in r ==> p in window && IsValidLocalityType(p.addressType) && (p.importantEnough || single)
    ensures forall i ::
      (0 <= i < |window| && IsValidLocalityType(window[i].addressType) && (window[i].importantEnough || single))
      ==> window[i] in r
  {
    if |window| == 0 then []
    else
      var head := window[0];
      (if IsValidLocalityType(head.addressType) && (head.importantEnough || single) then [head] else [])
        + KeepLocalities(window[1..], single)
  }

  function Window(places: seq<Place>): (r: seq<Place>)
    ensures |r| <= 2 && |r| <= |places| && r == places[..|r|]
    ensures |places| >= 2 ==> |r| == 2
    ensures |places| < 2 ==> r == places
  {
    if |places| <= 2 then places else places[..2]
  }

  function AcceptedPlaces(places: seq<Place>): seq<Place> {
    KeepLocalities(Window(places), |places| == 1)
  }

  function CountriesOf(accepted: seq<Place>): set<string> {
    set p | p in accepted :: CountryOf(p.displayName)
  }

  /** The point of a candidate: longitude is parsed first, so its failure
      is the one reported when both fail. */
  function PointOf(p: Place, parse: string -> Option<real>): (r: Result<Point, GeoError>)
    ensures r.Success? <==> parse(p.lon).Some? && parse(p.lat).Some?
    ensures r.Success? ==> r.value == Point("Point", parse(p.lon).value, parse(p.lat).value)
    ensures parse(p.lon).None? ==> r == Failure(InvalidNumber(p.lon))
    ensures parse(p.lon).Some? && parse(p.lat).None? ==> r == Failure(InvalidNumber(p.lat))
  {
    match parse(p.lon)
    case None => Failure(InvalidNumber(p.lon))
    case Some(lon) =>
      match parse(p.lat)
      case None => Failure(InvalidNumber(p.lat))
      case Some(lat) => Success(Point("Point", lon, lat))
  }

  /** The decision part of `queryNominatimForCityGeoloc`, after the
      response has been decoded into candidates. */
  function DisambiguateCity(city: string, country: string, places: seq<Place>, parse: string -> Option<real>): (r: Result<Point, GeoError>)
    ensures r.Success? ==> r.value.geoJsonType == "Point"
  {
    var accepted := AcceptedPlaces(places);
    if |accepted| == 0 then Failure(NoRelevantCoordinates(city, country))
    else
      var countries := CountriesOf(accepted);
      if |countries| == 1 then PointOf(accepted[0], parse)
      else Failure(Ambiguous(city, countries))
  }

  /** The kept candidates are exactly the accepted positions, in order. */
  lemma AcceptedPlacesByPosition(places: seq<Place>)
    ensures AcceptedPlaces(places) ==
      (if Accepted(places, 0) then [places[0]] else []) + (if Accepted(places, 1) then [places[1]] else [])
  {
    var w := Window(places);
    var single := |places| == 1;
    if |w| == 2 {
      assert w[1..][1..] == [];
      assert KeepLocalities(w[1..], single) ==
        (if Accepted(places, 1) then [places[1]] else []) + KeepLocalities(w[1..][1..], single);
    } else if |w| == 1 {
      assert w[1..] == [];
    }
  }

  /** Candidates after the second never change the outcome. */
  lemma OnlyFirstTwoCandidatesMatter(city: string, country: string, places: seq<Place>, more: seq<Place>, parse: string -> Option<real>)
    requires |places| >= 2
    ensures DisambiguateCity(city, country, places + more, parse) == DisambiguateCity(city, country, places, parse)
  {
    assert Window(places + more) == Window(places);
    assert (|places + more| == 1) == (|places| == 1);
  }

  /** The three outcomes of disambiguation, stated on the acceptance rule:
      no accepted candidate, two accepted candidates from different
      countries, or the point of the first accepted candidate. */
  lemma DisambiguateCityOutcome(city: string, country: string, places: seq<Place>, parse: string -> Option<real>)
    ensures
      var r := DisambiguateCity(city, country, places, parse);
      && ((!Accepted(places, 0) && !Accepted(places, 1)) <==> r == Failure(NoRelevantCoordinates(city, country)))
      && ((Accepted(places, 0) && Accepted(places, 1)
           && CountryOf(places[0].displayName) != CountryOf(places[1].displayName)) <==>
          (r.Failure? && r.error.Ambiguous?))
      && (Accepted(places, 0) && Accepted(places, 1)
          && CountryOf(places[0].displayName) != CountryOf(places[1].displayName) ==>
          r == Failure(Ambiguous(city, {CountryOf(places[0].displayName), CountryOf(places[1].displayName)})))
      && (Accepted(places, 0) && (!Accepted(places, 1) || CountryOf(places[0].displayName) == CountryOf(places[1].displayName)) ==>
          r == PointOf(places[0], parse))
      && (!Accepted(places, 0) && Accepted(places, 1) ==> r == PointOf(places[1], parse))
  {
    if Accepted(places, 0) && Accepted(places, 1) {
      BothAccepted(city, country, places, parse);
    } else if Accepted(places, 0) {
      OneAccepted(city, country, places, parse, 0);
    } else if Accepted(places, 1) {
      OneAccepted(city, country, places, parse, 1);
    } else {
      AcceptedPlacesByPosition(places);
    }
  }

  lemma BothAccepted(city: string, country: string, places: seq<Place>, parse: string -> Option<real>)
    requires Accepted(places, 0) && Accepted(places, 1)
    ensures var c0, c1 := CountryOf(places[0].displayName), CountryOf(places[1].displayName);
      DisambiguateCity(city, country, places, parse) ==
        if c0 != c1 then Failure(Ambiguous(city, {c0, c1})) else PointOf(places[0], parse)
  {
    AcceptedPlacesByPosition(places);
    var accepted := AcceptedPlaces(places);
    assert accepted == [places[0], places[1]];
    var c0, c1 := CountryOf(places[0].displayName), CountryOf(places[1].displayName);
    assert CountriesOf(accepted) == {c0, c1};
    if c0 != c1 {
      assert |{c0, c1}| == 2;
    } else {
      assert {c0, c1} == {c0};
    }
  }

  lemma OneAccepted(city: string, country: string, places: seq<Place>, parse: string -> Option<real>, i: nat)
    requires i < 2 && Accepted(places, i) && !Accepted(places, 1 - i)
    ensures DisambiguateCity(city, country, places, parse) == PointOf(places[i], parse)
  {
    AcceptedPlacesByPosition(places);
    var accepted := AcceptedPlaces(places);
    assert accepted == [places[i]];
    assert CountriesOf(accepted) == {CountryOf(places[i].displayName)};
  }

  // ---------------------------------------------------------------- venue selection

  const AmenityTypes: set<string> := {
    "arts_centre", "bar", "cafe", "community_centre", "concert_hall", "events_centre",
    "events_venue", "mobility_hub", "music_school", "music_venue", "nightclub",
    "place_of_worship", "pub", "restaurant", "social_centre", "theatre", "university"
  }

  /** `isValidAmenityType`. */
  predicate IsValidAmenityType(placeType: string) {
    placeType in AmenityTypes
  }

  /** A candidate that can stand for a venue: an amenity of an allowed
      kind. */
  predicate Qualifies(p: Place) {
    p.addressType == "amenity" && IsValidAmenityType(p.placeType)
  }

  /** The locality of a venue: the candidate's city, else its town, else its
      village, else the city the caller asked about. */
  function Locality(a: PlaceAddress, city: string): (r: string)
    ensures r in {a.city, a.town, a.village, city}
    ensures r == "" ==> a.city == "" && a.town == "" && a.village == "" && city == ""
    ensures a.city != "" ==> r == a.city
    ensures a.city == "" && a.town != "" ==> r == a.town
    ensures a.city == "" && a.town == "" && a.village != "" ==> r == a.village
  {
    if a.city != "" then a.city
    else if a.town != "" then a.town
    else if a.village != "" then a.village
    else city
  }

  /** The venue built from a qualifying candidate: named after the caller's
      location, typed by the candidate, with the candidate's address. */
  function VenueOf(location: string, city: string, p: Place, point: Point): (r: Venue)
    ensures r.name == location && r.venueType == p.placeType
    ensures r.address.locality == Locality(p.address, city)
    ensures r.address.geolocation == point
    ensures r.address.country == p.address.country && r.address.state == p.address.state
    ensures r.address.postCode == p.address.postcode
    ensures r.address.street == p.address.road && r.address.houseNumber == p.address.houseNumber
  {
    Venue(location, p.placeType,
      Address(Locality(p.address, city), p.address.country, p.address.state, p.address.postcode,
        p.address.road, p.address.houseNumber, point))
  }

  /** The position of the first qualifying candidate, if any. */
  function FirstQualifying(places: seq<Place>, from: nat): (r: Option<nat>)
    requires from <= |places|
    ensures r.Some? ==> from <= r.value < |places| && Qualifies(places[r.value])
    ensures r.Some? ==> forall j :: from <= j < r.value ==> !Qualifies(places[j])
    ensures r.None? ==> forall j :: from <= j < |places| ==> !Qualifies(places[j])
    decreases |places| - from
  {
    if from == |places| then None
    else if Qualifies(places[from]) then Some(from)
    else FirstQualifying(places, from + 1)
  }

  /** A qualifying candidate with none qualifying before it is the one
      found. */
  lemma FirstQualifierIsFound(places: seq<Place>)
    ensures forall i :: 0 <= i < |places| && Qualifies(places[i]) && (forall j :: 0 <= j < i ==> !Qualifies(places[j])) ==>
      FirstQualifying(places, 0) == Some(i)
  {
    forall i | 0 <= i < |places| && Qualifies(places[i]) && (forall j :: 0 <= j < i ==> !Qualifies(places[j]))
      ensures FirstQualifying(places, 0) == Some(i)
    {
      var f := FirstQualifying(places, 0);
      assert f.Some?;
      assert !(f.value < i) && !(i < f.value);
    }
  }

  /** The decision part of `queryNominatimForVenue`: the first qualifying
      candidate decides, and a coordinate that does not parse is an error
      even if a later candidate would do. */
  function SelectVenue(location: string, city: string, places: seq<Place>, parse: string -> Option<real>): (r: Result<Venue, GeoError>)
    ensures r == Failure(NoRelevantVenue(location, city)) <==> forall j :: 0 <= j < |places| ==> !Qualifies(places[j])
    ensures r.Success? ==> r.value.name == location
    ensures r.Success? ==> exists i :: 0 <= i < |places| && Qualifies(places[i]) && r.value.venueType == places[i].placeType
    // the first qualifying candidate decides: its point makes the venue, and
    // a coordinate of it that does not parse is the error
    ensures forall i :: 0 <= i < |places| && Qualifies(places[i]) && (forall j :: 0 <= j < i ==> !Qualifies(places[j])) ==>
      && (PointOf(places[i], parse).Failure? ==> r == Failure(PointOf(places[i], parse).error))
      && (PointOf(places[i], parse).Success? ==>
            r == Success(VenueOf(location, city, places[i], PointOf(places[i], parse).value)))
  {
    FirstQualifierIsFound(places);
    match FirstQualifying(places, 0)
    case None => Failure(NoRelevantVenue(location, city))
    case Some(i) =>
      match PointOf(places[i], parse)
      case Failure(e) => Failure(e)
      case Success(point) => Success(VenueOf(location, city, places[i], point))
  }

  function QualifyingOnly(places: seq<Place>): (r: seq<Place>)
    ensures forall p :: p in r ==> p in places && Qualifies(p)
  {
    if |places| == 0 then []
    else (if Qualifies(places[0]) then [places[0]] else []) + QualifyingOnly(places[1..])
  }

  lemma {:induction false} FirstQualifyingShift(places: seq<Place>, from: nat)
    requires 0 < from <= |places|
    ensures
      var a := FirstQualifying(places, from);
      var b := FirstQualifying(places[1..], from - 1);
      (a.None? <==> b.None?) && (a.Some? ==> a.value == b.value + 1)
    decreases |places| - from
  {
    if from < |places| {
      assert places[1..][from - 1] == places[from];
      FirstQualifyingShift(places, from + 1);
    }
  }

  /** The candidate that decides a venue lookup, read without positions:
      the head of the qualifying candidates. */
  lemma {:induction false} FirstQualifyingIsHead(places: seq<Place>)
    ensures FirstQualifying(places, 0).None? <==> QualifyingOnly(places) == []
    ensures FirstQualifying(places, 0).Some? ==>
      QualifyingOnly(places)[0] == places[FirstQualifying(places, 0).value]
    decreases |places|
  {
    if |places| > 0 {
      if !Qualifies(places[0]) {
        FirstQualifyingShift(places, 1);
        FirstQualifyingIsHead(places[1..]);
      } else {
        assert QualifyingOnly(places)[0] == places[0];
      }
    }
  }

  /** Dropping candidates that do not qualify never changes the venue
      chosen, nor the error. */
  lemma SelectVenueIgnoresNonQualifying(location: string, city: string, places: seq<Place>, parse: string -> Option<real>)
    ensures SelectVenue(location, city, QualifyingOnly(places), parse) == SelectVenue(location, city, places, parse)
  {
    FirstQualifyingIsHead(places);
    var q := QualifyingOnly(places);
    if q != [] {
      assert Qualifies(q[0]);
      assert FirstQualifying(q, 0) == Some(0);
    } else {
      assert FirstQualifying(q, 0) == None;
    }
  }
}
