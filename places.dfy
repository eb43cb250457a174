// Data model of the trail finder: the values the places provider hands over
// and the scored places the search derives from them.
module Places {

  /** A value that may be absent, such as a place's rating. */
  datatype Option<T> = None | Some(value: T)

  /** Geographic coordinates of a point. */
  datatype LatLng = LatLng(lat: real, lng: real)

  /** A place as the nearby-search provider returns it; read-only here. */
  datatype Place = Place(name: string, location: LatLng, rating: Option<real>)

  /** A place paired with its distance, in metres, from the searched location. */
  datatype Trail = Trail(place: Place, distance: real)

  /** The provider's great-circle distance, in metres, between two points.
      It is computed outside the model, so every operation takes it as a parameter. */
  type DistanceFn = (LatLng, LatLng) -> real
}
