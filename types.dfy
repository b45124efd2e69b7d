/**
 * The record types of the travel-location store: a location, its visit
 * status and the filter the sidebar applies to the list.
 */
module Types {

  /** A value that may be absent: JavaScript's `T | null` (and `undefined`). */
  datatype Option<+T> = None | Some(value: T)

  /** `'wishlist' | 'visited'` */
  datatype Status = Wishlist | Visited

  /** `'all' | 'wishlist' | 'visited'`: `All`, or only the entries of one status. */
  datatype FilterStatus = All | Only(status: Status)

  /**
   * The `[latitude, longitude]` pair. The store never computes on it, so the
   * two numbers are carried as opaque reals.
   */
  datatype Coordinates = Coordinates(lat: real, lng: real)

  /** One point of interest; `createdAt` is milliseconds since the epoch. */
  datatype Location = Location(
    id: string,
    name: string,
    coordinates: Coordinates,
    notes: string,
    status: Status,
    createdAt: int)

  /** The other status: what TOGGLE_STATUS writes into a matching entry. */
  function Flip(s: Status): (r: Status)
    ensures r != s
  {
    if s == Wishlist then Visited else Wishlist
  }

  /** Flipping twice gives back the status one started with. */
  lemma FlipInvolution(s: Status)
    ensures Flip(Flip(s)) == s
  {
  }
}
