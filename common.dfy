/** Optional values, results, and the errors raised by the campaign core. */
module Common {

  /** A value that may be missing: a key left out of a partial record, or a lookup that found nothing. */
  datatype Option<+T> = None | Some(value: T) {

    /** The value if present, otherwise `default` (how an object spread falls back to the older value). */
    function GetOr(default: T): T {
      if Some? then value else default
    }
  }

  /** The outcome of an operation that may throw. */
  datatype Result<+T> = Success(value: T) | Failure(error: Error)

  /** Every way an operation of the core can fail. */
  datatype Error =
    | DateOrder           // the start date lies after the end date
    | CategoryIdRequired  // an update request without a truthy categoryId
    | CategoryNotFound    // the referenced category has no row
    | CampaignNotFound    // the campaign to update has no row
    | RecordNotFound      // the ORM was asked to update or delete an id that has no row
    | MissingValue        // the ORM was handed no value for a required column or lookup key

  /** The message each error carries; the last two are raised by the ORM, not by the core. */
  function Message(e: Error): string {
    match e
    case DateOrder => "Start date must be before or equal to end date"
    case CategoryIdRequired => "Category Id is required"
    case CategoryNotFound => "Category not found"
    case CampaignNotFound => "Campaign not found"
    case RecordNotFound => "Record not found"
    case MissingValue => "Missing value for a required argument"
  }
}
