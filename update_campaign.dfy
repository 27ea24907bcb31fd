/**
 * Updating a campaign: the checks run in a fixed order (category id present,
 * category exists, campaign exists, merged dates in order); a merged end
 * date in the past expires the campaign; only the patch reaches the store.
 */
module UpdateCampaign {
  import opened Common
  import opened Campaigns
  import opened CampaignStore
  import opened CategoryStore

  /** The categoryId is missing or falsy (0). */
  predicate CategoryIdMissing(data: CampaignData) {
    data.categoryId.None? || data.categoryId.value == 0
  }

  /** The patch sent to the store: the caller's, with the status replaced when the merged end date has passed. */
  function Normalised(stored: Campaign, data: CampaignData, now: int): (r: CampaignData) {
    if Merge(stored, data).endDate < now then data.(status := Some(EXPIRED)) else data
  }

  /**
   * Expiring the patch is the same as expiring the merged record, and the
   * normalised patch differs from the caller's in the status alone.
   */
  lemma NormalisedExpires(stored: Campaign, data: CampaignData, now: int)
    ensures Merge(stored, data).endDate < now ==> Merge(stored, Normalised(stored, data, now)).status == EXPIRED
    ensures !(Merge(stored, data).endDate < now) ==> Normalised(stored, data, now) == data
    ensures Normalised(stored, data, now).(status := data.status) == data
    ensures Merge(stored, Normalised(stored, data, now)).(status := Merge(stored, data).status) == Merge(stored, data)
  {
  }

  class UpdateCampaignUseCase {
    const campaignRepository: CampaignRepository
    const categoryRepository: CategoryRepository

    constructor (campaigns: CampaignRepository, categories: CategoryRepository)
      ensures campaignRepository == campaigns && categoryRepository == categories
    {
      campaignRepository := campaigns;
      categoryRepository := categories;
    }

    /** `execute`: patch campaign `id` with `campaignData`, judging expiry at `now`. */
    method Execute(id: int, campaignData: CampaignData, now: int) returns (r: Result<Campaign>)
      requires campaignRepository.Valid()
      modifies campaignRepository
      ensures campaignRepository.Valid()
      // The checks, in the order they run.
      ensures CategoryIdMissing(campaignData) ==> r == Failure(CategoryIdRequired)
      ensures !CategoryIdMissing(campaignData) && campaignData.categoryId.value !in categoryRepository.rows ==>
        r == Failure(CategoryNotFound)
      ensures && !CategoryIdMissing(campaignData)
              && campaignData.categoryId.value in categoryRepository.rows
              && id !in old(campaignRepository.rows)
              ==> r == Failure(CampaignNotFound)
      ensures && !CategoryIdMissing(campaignData)
              && campaignData.categoryId.value in categoryRepository.rows
              && id in old(campaignRepository.rows)
              ==> (r == Failure(DateOrder) <==> !Ordered(Merge(old(campaignRepository.rows)[id], campaignData)))
      ensures r.Success? <==>
        && !CategoryIdMissing(campaignData)
        && campaignData.categoryId.value in categoryRepository.rows
        && id in old(campaignRepository.rows)
        && Ordered(Merge(old(campaignRepository.rows)[id], campaignData))
      // A refused request issues no update.
      ensures r.Failure? ==> unchanged(campaignRepository)
      // Only the row `id` changes, and it receives the caller's patch with at most the status replaced.
      ensures r.Success? ==>
        && r.value == Merge(old(campaignRepository.rows)[id], Normalised(old(campaignRepository.rows)[id], campaignData, now))
        && campaignRepository.rows == old(campaignRepository.rows)[id := r.value]
      ensures r.Success? ==>
        && r.value.id == id
        && r.value.categoryId == campaignData.categoryId.value
        && r.value.categoryId in categoryRepository.rows
        && Ordered(r.value)
      ensures r.Success? && r.value.endDate < now ==> r.value.status == EXPIRED
      ensures r.Success? && !(r.value.endDate < now) ==>
        r.value.status == campaignData.status.GetOr(old(campaignRepository.rows)[id].status)
      // Every row written through this use case has its dates in order.
      ensures (forall k :: k in old(campaignRepository.rows) ==> Ordered(old(campaignRepository.rows)[k])) ==>
        forall k :: k in campaignRepository.rows ==> Ordered(campaignRepository.rows[k])
    {
      if CategoryIdMissing(campaignData) {
        return Failure(CategoryIdRequired);
      }

      var category := categoryRepository.FindById(campaignData.categoryId.value);
      if category.None? {
        return Failure(CategoryNotFound);
      }

      var campaign := campaignRepository.FindById(id);
      if campaign.None? {
        return Failure(CampaignNotFound);
      }

      var updatedCampaign := Merge(campaign.value, campaignData);
      if updatedCampaign.startDate > updatedCampaign.endDate {
        return Failure(DateOrder);
      }

      var patch := campaignData;
      if updatedCampaign.endDate < now {
        patch := patch.(status := Some(EXPIRED));
      }

      r := campaignRepository.Update(id, patch);
    }
  }
}
