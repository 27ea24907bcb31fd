/**
 * A client of the use cases and stores, proved from the contracts alone. The
 * first three scenarios (kept ACTIVE, expired on create, inverted range
 * refused) are those of the repository's tests; the others follow from the
 * update use case and the stores as written.
 */
module Scenarios {
  import opened Common
  import opened Campaigns
  import opened CampaignStore
  import opened CategoryStore
  import opened CreateCampaign
  import opened UpdateCampaign

  const Day := 86400000

  function Request(status: Status, categoryId: int, startDate: int, endDate: int): (r: CampaignData) {
    CampaignData(Some("Summer Sale"), Some(status), Some(startDate), Some(endDate), Some(categoryId), None, None, None)
  }

  method CampaignLifecycle(now: int) {
    var campaigns := new CampaignRepository();
    var categories := new CategoryRepository();
    var category := categories.Create(Some("Seasonal"));
    assert category.Success?;
    var cid := category.value.id;

    var create := new CreateCampaignUseCase(campaigns, categories);
    var update := new UpdateCampaignUseCase(campaigns, categories);

    // A future end date and an existing category keep the requested status.
    var active := create.Execute(Request(ACTIVE, cid, now, now + Day), now, now);
    assert active.Success? && active.value.status == ACTIVE;

    // An end date already past is expired whatever status was requested.
    var past := create.Execute(Request(ACTIVE, cid, now - 2 * Day, now - Day), now, now);
    assert past.Success? && past.value.status == EXPIRED;

    // A start date after the end date is refused and nothing is persisted.
    var before := campaigns.rows;
    var inverted := create.Execute(Request(ACTIVE, cid, now + Day, now), now, now);
    assert inverted == Failure(DateOrder) && campaigns.rows == before;

    // An update without a category id is refused with its own error.
    var noCategory := update.Execute(active.value.id, EmptyPatch, now);
    assert noCategory == Failure(CategoryIdRequired);

    // An update that moves the end date before the stored start date is refused.
    var early := update.Execute(active.value.id, EmptyPatch.(categoryId := Some(cid), endDate := Some(now - Day)), now);
    assert early == Failure(DateOrder);

    // A soft-deleted campaign leaves the listing but is still found by id.
    var deleted := campaigns.Delete(active.value.id, now);
    assert deleted == Success(true);
    var listed := campaigns.FindAll();
    var found := campaigns.FindById(active.value.id);
    assert found.Some? && found.value.deletedAt == Some(now);
    assert found.value !in listed;

    // Deleting the category removes it for good.
    var gone := categories.Delete(cid);
    var lookup := categories.FindById(cid);
    assert gone == Success(true) && lookup.None?;
  }
}
