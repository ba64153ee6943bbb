/**
 * The rows of the rental-listing table, before and after cleaning.
 * A missing cell (NaN in the data frame) is `None`.
 */
module Listings {
  import opened Wrappers

  /** A text cell that may be missing. */
  type Cell = Option<string>

  /** The value given to a missing cancellation policy or instant-bookable flag. */
  const Unknown: string := "Unknown"

  /** The two columns the loader creates when the file lacks them. */
  datatype OptionalColumn = CancellationPolicyColumn | InstantBookableColumn

  /** The order in which the loader looks at the optional columns. */
  const RequiredColumns: seq<OptionalColumn> := [CancellationPolicyColumn, InstantBookableColumn]

  /**
   * One row as read from the file. Price and service fee are still the
   * currency-formatted text; the last-review date arrives already parsed
   * (a day number, `None` where the text did not parse). When an optional
   * column is absent from the file, the matching field of every row is
   * meaningless.
   */
  datatype RawListing = RawListing(
    id: int,
    name: Cell,
    hostId: int,
    group: Cell,
    neighbourhood: Cell,
    country: Cell,
    roomType: Cell,
    price: Cell,
    serviceFee: Cell,
    minimumNights: Option<int>,
    numberOfReviews: Option<int>,
    reviewsPerMonth: Option<real>,
    lastReview: Option<int>,
    availability: Option<int>,
    hostListings: Option<int>,
    cancellationPolicy: Cell,
    instantBookable: Cell,
    license: Cell)

  /** The table read from the file: which optional columns it has, and its rows. */
  datatype RawTable = RawTable(columns: set<OptionalColumn>, rows: seq<RawListing>)

  /** One row of the cleaned table: amounts are numbers, the licence is gone. */
  datatype Listing = Listing(
    id: int,
    name: Cell,
    hostId: int,
    group: Cell,
    neighbourhood: Cell,
    country: Cell,
    roomType: Cell,
    price: Option<real>,
    serviceFee: Option<real>,
    minimumNights: Option<int>,
    numberOfReviews: int,
    reviewsPerMonth: real,
    lastReview: Option<int>,
    availability: Option<int>,
    hostListings: Option<int>,
    cancellationPolicy: string,
    instantBookable: string)

  /** The text columns the views filter and group by. */
  datatype TextColumn = Country | NeighbourhoodGroup | Neighbourhood | RoomType

  function TextOf(l: Listing, col: TextColumn): Cell
  {
    match col
    case Country => l.country
    case NeighbourhoodGroup => l.group
    case Neighbourhood => l.neighbourhood
    case RoomType => l.roomType
  }

  /** The cell of an optional column in a raw row. */
  function CellOf(r: RawListing, col: OptionalColumn): Cell
  {
    match col
    case CancellationPolicyColumn => r.cancellationPolicy
    case InstantBookableColumn => r.instantBookable
  }

  /** A pandas equality test on a text column: a missing cell equals nothing. */
  predicate CellIs(cell: Cell, value: Cell)
  {
    cell.Some? && value.Some? && cell.value == value.value
  }
}
