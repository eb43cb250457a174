// The page's state across searches: the map's zoom and centre, the markers
// placed on it, the trail list under it and the alerts shown to the user,
// and the submit handler that drives one search through geocoding, the
// nearby search, ranking and rendering.
module TrailPage {
  import opened Places
  import opened Zoom
  import opened Ranking

  /** The rating text of a list entry or info window. */
  datatype RatingText = Rated(value: real) | NoRating

  /** A place's rating as displayed; a missing rating and a rating of zero
      (both falsy) show the fallback text. */
  function RatingLabel(rating: Option<real>): (text: RatingText)
    ensures text == NoRating <==> rating == None || rating == Some(0.0)
    ensures text.Rated? ==> rating == Some(text.value)
  {
    match rating
    case Some(r) => if r != 0.0 then Rated(r) else NoRating
    case None => NoRating
  }

  /** One item of the trail list: a link named after the place, its distance
      in metres from the searched location, and its rating. */
  datatype ListEntry = ListEntry(name: string, distance: real, rating: RatingText)

  /** A marker at a place, with the contents of its info window. */
  datatype Marker = Marker(position: LatLng, name: string, distance: real, rating: RatingText)

  /** The list item for `place`; its distance is measured anew from `userLocation`. */
  function EntryFor(place: Place, userLocation: LatLng, distanceBetween: DistanceFn): (entry: ListEntry)
    ensures entry.name == place.name
    ensures entry.rating == NoRating <==> place.rating == None || place.rating == Some(0.0)
  {
    ListEntry(place.name, distanceBetween(userLocation, place.location), RatingLabel(place.rating))
  }

  /** The marker for `place`; its distance is measured anew from `userLocation`. */
  function MarkerFor(place: Place, userLocation: LatLng, distanceBetween: DistanceFn): (marker: Marker)
    ensures marker.position == place.location && marker.name == place.name
    ensures marker.rating == NoRating <==> place.rating == None || place.rating == Some(0.0)
  {
    Marker(place.location, place.name, distanceBetween(userLocation, place.location), RatingLabel(place.rating))
  }

  /** The list items for `trails`, one per trail, in order. */
  function EntriesFor(trails: seq<Trail>, userLocation: LatLng, distanceBetween: DistanceFn): (entries: seq<ListEntry>)
    ensures |entries| == |trails|
    ensures forall k :: 0 <= k < |trails| ==> entries[k] == EntryFor(trails[k].place, userLocation, distanceBetween)
  {
    if trails == [] then []
    else EntriesFor(trails[..|trails| - 1], userLocation, distanceBetween)
           + [EntryFor(trails[|trails| - 1].place, userLocation, distanceBetween)]
  }

  /** The markers for `trails`, one per trail, in order. */
  function MarkersFor(trails: seq<Trail>, userLocation: LatLng, distanceBetween: DistanceFn): (markers: seq<Marker>)
    ensures |markers| == |trails|
    ensures forall k :: 0 <= k < |trails| ==> markers[k] == MarkerFor(trails[k].place, userLocation, distanceBetween)
  {
    if trails == [] then []
    else MarkersFor(trails[..|trails| - 1], userLocation, distanceBetween)
           + [MarkerFor(trails[|trails| - 1].place, userLocation, distanceBetween)]
  }

  /** What the geocoder reports for the entered address: the location of its
      first result, or the status it failed with. */
  datatype GeocodeOutcome = Geocoded(location: LatLng) | GeocodeFailed(status: string)

  /** What the nearby search reports: its results, or the status it failed with. */
  datatype SearchOutcome = Found(results: seq<Place>) | SearchFailed(status: string)

  /** The trails one search renders: the ranked results when both the
      geocoder and the nearby search succeed, and nothing otherwise. */
  function Rendered(geocode: GeocodeOutcome, search: SearchOutcome, radius: real, distanceBetween: DistanceFn): (trails: seq<Trail>)
    ensures trails != [] ==> geocode.Geocoded? && search.Found? && |trails| <= |search.results|
    ensures SortedByDistance(trails)
  {
    if geocode.Geocoded? && search.Found? then Ranked(search.results, geocode.location, radius, distanceBetween)
    else []
  }

  /** The alert shown when geocoding fails. */
  function GeocodeAlert(status: string): (message: string)
    ensures |message| > |status| && message[|message| - |status|..] == status
  {
    "Geocode was not successful for the following reason: " + status
  }

  /** A failed geocode or nearby search adds no marker and no list item. */
  lemma FailureRendersNothing(geocode: GeocodeOutcome, search: SearchOutcome, radius: real, userLocation: LatLng, distanceBetween: DistanceFn)
    requires geocode.GeocodeFailed? || search.SearchFailed?
    ensures Rendered(geocode, search, radius, distanceBetween) == []
    ensures EntriesFor(Rendered(geocode, search, radius, distanceBetween), userLocation, distanceBetween) == []
    ensures MarkersFor(Rendered(geocode, search, radius, distanceBetween), userLocation, distanceBetween) == []
  {
  }

  /** After a successful search the trail list shows every place within the
      radius, each at most `radius` away, in non-decreasing order of distance,
      one entry per ranked trail with that trail's own distance. */
  lemma RenderedListRanked(results: seq<Place>, userLocation: LatLng, radius: real, distanceBetween: DistanceFn)
    ensures var ranked := Ranked(results, userLocation, radius, distanceBetween);
            var entries := EntriesFor(ranked, userLocation, distanceBetween);
            |entries| == |ranked| &&
            (forall k :: 0 <= k < |entries| ==>
               entries[k].name == ranked[k].place.name && entries[k].distance == ranked[k].distance) &&
            (forall k :: 0 <= k < |entries| ==> entries[k].distance <= radius) &&
            (forall i, j :: 0 <= i < j < |entries| ==> entries[i].distance <= entries[j].distance)
  {
    var ranked := Ranked(results, userLocation, radius, distanceBetween);
    var entries := EntriesFor(ranked, userLocation, distanceBetween);
    RankedIsStableSort(results, userLocation, radius, distanceBetween);
    forall k | 0 <= k < |entries|
      ensures entries[k].distance == ranked[k].distance <= radius
    {
      RankedWithinRadius(results, userLocation, radius, distanceBetween, ranked[k]);
    }
  }

  /** The map, its markers, the trail list and the alerts of one page. */
  class Page {
    var zoom: int
    var center: LatLng
    var markers: seq<Marker>
    var entries: seq<ListEntry>
    var alerts: seq<string>

    /** The map as first shown: zoom 10, centred on San Francisco, empty. */
    constructor ()
      ensures zoom == 10 && center == LatLng(37.7749, -122.4194)
      ensures markers == [] && entries == [] && alerts == []
    {
      zoom := 10;
      center := LatLng(37.7749, -122.4194);
      markers := [];
      entries := [];
      alerts := [];
    }

    /** Empties the trail list; markers already on the map stay there. */
    method ClearTrailList()
      modifies this`entries
      ensures entries == []
    {
      entries := [];
    }

    /** Appends the list item for `place` to the trail list. */
    method AddTrailToList(place: Place, userLocation: LatLng, distanceBetween: DistanceFn)
      modifies this`entries
      ensures entries == old(entries) + [EntryFor(place, userLocation, distanceBetween)]
    {
      entries := entries + [EntryFor(place, userLocation, distanceBetween)];
    }

    /** Drops a marker for `place` on the map. */
    method CreateMarker(place: Place, userLocation: LatLng, distanceBetween: DistanceFn)
      modifies this`markers
      ensures markers == old(markers) + [MarkerFor(place, userLocation, distanceBetween)]
    {
      markers := markers + [MarkerFor(place, userLocation, distanceBetween)];
    }

    /** Appends one marker and one list item per trail, in order. */
    method RenderTrails(trails: seq<Trail>, userLocation: LatLng, distanceBetween: DistanceFn)
      modifies this`markers, this`entries
      ensures markers == old(markers) + MarkersFor(trails, userLocation, distanceBetween)
      ensures entries == old(entries) + EntriesFor(trails, userLocation, distanceBetween)
    {
      for i := 0 to |trails|
        invariant markers == old(markers) + MarkersFor(trails[..i], userLocation, distanceBetween)
        invariant entries == old(entries) + EntriesFor(trails[..i], userLocation, distanceBetween)
      {
        assert trails[..i + 1][..i] == trails[..i];
        CreateMarker(trails[i].place, userLocation, distanceBetween);
        AddTrailToList(trails[i].place, userLocation, distanceBetween);
      }
      assert trails[..|trails|] == trails;
    }

    /** Geocodes, searches and renders: on success, recentres the map and
        appends one marker and one list item per ranked trail, in ranked order;
        on a geocoding failure, shows an alert; on a search failure, adds nothing. */
    method FindTrails(radius: real, geocode: GeocodeOutcome, search: SearchOutcome, distanceBetween: DistanceFn)
      modifies this`center, this`markers, this`entries, this`alerts
      ensures center == if geocode.Geocoded? then geocode.location else old(center)
      ensures markers == old(markers) + MarkersFor(Rendered(geocode, search, radius, distanceBetween), center, distanceBetween)
      ensures entries == old(entries) + EntriesFor(Rendered(geocode, search, radius, distanceBetween), center, distanceBetween)
      ensures alerts == old(alerts) + if geocode.GeocodeFailed? then [GeocodeAlert(geocode.status)] else []
    {
      if geocode.Geocoded? {
        var userLocation := geocode.location;
        center := userLocation;
        if search.Found? {
          var trails := RankTrails(search.results, userLocation, radius, distanceBetween);
          RenderTrails(trails, userLocation, distanceBetween);
        }
      } else {
        alerts := alerts + [GeocodeAlert(geocode.status)];
      }
    }

    /** The form's submit handler, given the radius already in metres: sets the
        zoom for the radius, clears the trail list and runs the search. */
    method Submit(radius: real, geocode: GeocodeOutcome, search: SearchOutcome, distanceBetween: DistanceFn)
      modifies this
      ensures zoom == ZoomLevel(radius)
      ensures center == if geocode.Geocoded? then geocode.location else old(center)
      ensures markers == old(markers) + MarkersFor(Rendered(geocode, search, radius, distanceBetween), center, distanceBetween)
      ensures entries == EntriesFor(Rendered(geocode, search, radius, distanceBetween), center, distanceBetween)
      ensures alerts == old(alerts) + if geocode.GeocodeFailed? then [GeocodeAlert(geocode.status)] else []
      ensures geocode.GeocodeFailed? || search.SearchFailed? ==> entries == [] && markers == old(markers)
    {
      zoom := ZoomLevel(radius);
      ClearTrailList();
      FindTrails(radius, geocode, search, distanceBetween);
    }
  }
}
