/**
 * The campaign entity: its statuses, the partial record callers hand in,
 * the stored row, and the constructor that validates the dates and
 * expires a campaign whose end date has passed.
 * Dates are instants in integer milliseconds, compared as numbers.
 */
module Campaigns {
  import opened Common

  datatype Status = ACTIVE | PAUSED | EXPIRED

  /**
   * A partial campaign: the fields a caller supplies to the constructor, to
   * the update use case, or to the store. A field the caller left out is None.
   * An unsaved entity is one of these too: it has no id until the store assigns one.
   */
  datatype CampaignData = CampaignData(
    name: Option<string>,
    status: Option<Status>,
    startDate: Option<int>,
    endDate: Option<int>,
    categoryId: Option<int>,
    createdAt: Option<int>,
    updatedAt: Option<int>,
    deletedAt: Option<int>)

  /** A stored campaign row; `deletedAt` is None while the row is live. */
  datatype Campaign = Campaign(
    id: int,
    name: string,
    status: Status,
    startDate: int,
    endDate: int,
    categoryId: int,
    createdAt: int,
    updatedAt: int,
    deletedAt: Option<int>)

  /** Both dates are present and the start lies after the end. */
  predicate Inverted(startDate: Option<int>, endDate: Option<int>) {
    startDate.Some? && endDate.Some? && startDate.value > endDate.value
  }

  /** An end date is present and lies strictly before `now`. */
  predicate EndedBefore(endDate: Option<int>, now: int) {
    endDate.Some? && endDate.value < now
  }

  /** The campaign's dates are in order: the invariant the lifecycle policy keeps. */
  predicate Ordered(c: Campaign) {
    c.startDate <= c.endDate
  }

  /**
   * The entity constructor: copy the supplied fields, stamp both timestamps
   * with `now`, reject an inverted date range, then expire a campaign whose
   * end date has passed.
   */
  method NewCampaignEntity(partial: CampaignData, now: int) returns (r: Result<CampaignData>)
    ensures r.Failure? <==> Inverted(partial.startDate, partial.endDate)
    ensures r.Failure? ==> r.error == DateOrder
    ensures r.Success? ==> r.value.createdAt == Some(now) && r.value.updatedAt == Some(now)
    ensures r.Success? ==>
      && r.value.name == partial.name
      && r.value.categoryId == partial.categoryId
      && r.value.startDate == partial.startDate
      && r.value.endDate == partial.endDate
      && r.value.deletedAt == partial.deletedAt
    ensures r.Success? && EndedBefore(partial.endDate, now) ==> r.value.status == Some(EXPIRED)
    ensures r.Success? && !EndedBefore(partial.endDate, now) ==> r.value.status == partial.status
  {
    var entity := partial;
    entity := entity.(createdAt := Some(now), updatedAt := Some(now));
    if Inverted(entity.startDate, entity.endDate) {
      return Failure(DateOrder);
    }
    if EndedBefore(entity.endDate, now) {
      entity := entity.(status := Some(EXPIRED));
    }
    return Success(entity);
  }

  /**
   * The record `{...row, ...patch}`: every field present in the patch
   * overrides the stored one. The patch never carries an id.
   */
  function Merge(row: Campaign, patch: CampaignData): (r: Campaign) {
    Campaign(
      row.id,
      patch.name.GetOr(row.name),
      patch.status.GetOr(row.status),
      patch.startDate.GetOr(row.startDate),
      patch.endDate.GetOr(row.endDate),
      patch.categoryId.GetOr(row.categoryId),
      patch.createdAt.GetOr(row.createdAt),
      patch.updatedAt.GetOr(row.updatedAt),
      if patch.deletedAt.Some? then patch.deletedAt else row.deletedAt)
  }

  /** The patch with no field present. */
  const EmptyPatch := CampaignData(None, None, None, None, None, None, None, None)

  /**
   * Merging the empty patch changes nothing, merging the same patch twice is
   * merging it once, the id is kept, a field the patch carries overrides the
   * stored one, and a field the patch leaves out keeps its stored value.
   */
  lemma MergeLaws(row: Campaign, patch: CampaignData)
    ensures Merge(row, EmptyPatch) == row
    ensures Merge(Merge(row, patch), patch) == Merge(row, patch)
    ensures Merge(row, patch).id == row.id
    // Present fields override.
    ensures patch.name.Some? ==> Merge(row, patch).name == patch.name.value
    ensures patch.status.Some? ==> Merge(row, patch).status == patch.status.value
    ensures patch.startDate.Some? ==> Merge(row, patch).startDate == patch.startDate.value
    ensures patch.endDate.Some? ==> Merge(row, patch).endDate == patch.endDate.value
    ensures patch.categoryId.Some? ==> Merge(row, patch).categoryId == patch.categoryId.value
    ensures patch.createdAt.Some? ==> Merge(row, patch).createdAt == patch.createdAt.value
    ensures patch.updatedAt.Some? ==> Merge(row, patch).updatedAt == patch.updatedAt.value
    ensures patch.deletedAt.Some? ==> Merge(row, patch).deletedAt == patch.deletedAt
    // Absent fields keep the stored value.
    ensures patch.name.None? ==> Merge(row, patch).name == row.name
    ensures patch.status.None? ==> Merge(row, patch).status == row.status
    ensures patch.startDate.None? ==> Merge(row, patch).startDate == row.startDate
    ensures patch.endDate.None? ==> Merge(row, patch).endDate == row.endDate
    ensures patch.categoryId.None? ==> Merge(row, patch).categoryId == row.categoryId
    ensures patch.createdAt.None? ==> Merge(row, patch).createdAt == row.createdAt
    ensures patch.updatedAt.None? ==> Merge(row, patch).updatedAt == row.updatedAt
    ensures patch.deletedAt.None? ==> Merge(row, patch).deletedAt == row.deletedAt
  {
  }
}
