/**
 * Creating a campaign: build the entity (which checks the dates and may
 * expire it), require its category to exist, re-apply the expiry rule
 * against a second reading of the clock, and persist the result.
 */
module CreateCampaign {
  import opened Common
  import opened Campaigns
  import opened CampaignStore
  import opened CategoryStore

  /**
   * The request carries every column the campaign table requires once the
   * constructor has stamped the timestamps and possibly set the status.
   */
  predicate Storable(data: CampaignData, now: int, recheckNow: int) {
    && data.name.Some? && data.startDate.Some? && data.endDate.Some? && data.categoryId.Some?
    && (data.status.Some? || EndedBefore(data.endDate, now) || EndedBefore(data.endDate, recheckNow))
  }

  class CreateCampaignUseCase {
    const campaignRepository: CampaignRepository
    const categoryRepository: CategoryRepository

    constructor (campaigns: CampaignRepository, categories: CategoryRepository)
      ensures campaignRepository == campaigns && categoryRepository == categories
    {
      campaignRepository := campaigns;
      categoryRepository := categories;
    }

    /**
     * `execute`: `now` is the instant the entity reads the clock and
     * `recheckNow` the later instant the use case reads it again.
     */
    method Execute(campaignData: CampaignData, now: int, recheckNow: int) returns (r: Result<Campaign>)
      requires campaignRepository.Valid()
      modifies campaignRepository
      ensures campaignRepository.Valid()
      // The date order is checked first, whatever the category table holds.
      ensures Inverted(campaignData.startDate, campaignData.endDate) ==> r == Failure(DateOrder)
      // The category is looked up by the campaign's own categoryId.
      ensures !Inverted(campaignData.startDate, campaignData.endDate) && campaignData.categoryId.None? ==>
        r == Failure(MissingValue)
      ensures && !Inverted(campaignData.startDate, campaignData.endDate)
              && campaignData.categoryId.Some?
              && campaignData.categoryId.value !in categoryRepository.rows
              ==> r == Failure(CategoryNotFound)
      ensures r.Success? <==>
        && !Inverted(campaignData.startDate, campaignData.endDate)
        && campaignData.categoryId.Some? && campaignData.categoryId.value in categoryRepository.rows
        && Storable(campaignData, now, recheckNow)
      // A refused request persists nothing.
      ensures r.Failure? ==> unchanged(campaignRepository)
      // A successful request persists exactly one new row.
      ensures r.Success? ==>
        && r.value.id !in old(campaignRepository.rows)
        && campaignRepository.rows == old(campaignRepository.rows)[r.value.id := r.value]
      ensures r.Success? ==>
        && Some(r.value.name) == campaignData.name
        && Some(r.value.startDate) == campaignData.startDate
        && Some(r.value.endDate) == campaignData.endDate
        && Some(r.value.categoryId) == campaignData.categoryId
        && r.value.deletedAt == campaignData.deletedAt
        && r.value.createdAt == now && r.value.updatedAt == now
        && r.value.categoryId in categoryRepository.rows
        && Ordered(r.value)
      ensures r.Success? && (r.value.endDate < now || r.value.endDate < recheckNow) ==>
        r.value.status == EXPIRED
      ensures r.Success? && !(r.value.endDate < now || r.value.endDate < recheckNow) ==>
        Some(r.value.status) == campaignData.status
      // Every row written through this use case has its dates in order.
      ensures (forall k :: k in old(campaignRepository.rows) ==> Ordered(old(campaignRepository.rows)[k])) ==>
        forall k :: k in campaignRepository.rows ==> Ordered(campaignRepository.rows[k])
    {
      var built := NewCampaignEntity(campaignData, now);
      if built.Failure? {
        return Failure(built.error);
      }
      var campaign := built.value;

      if campaign.categoryId.None? {
        return Failure(MissingValue);
      }
      var category := categoryRepository.FindById(campaign.categoryId.value);
      if category.None? {
        return Failure(CategoryNotFound);
      }

      // The use case's own date check can no longer fail: the constructor has already refused.
      assert !Inverted(campaign.startDate, campaign.endDate);

      if EndedBefore(campaign.endDate, recheckNow) {
        campaign := campaign.(status := Some(EXPIRED));
      }

      r := campaignRepository.Create(campaign);
    }
  }
}
