# Campaign lifecycle model

This is a Dafny model of the business-rule core of the mamba-campaigns API. The API manages
marketing campaigns, and each campaign belongs to a category. The model covers:

- the campaign entity constructor. It copies the supplied fields, stamps `createdAt` and
  `updatedAt`, rejects a start date after the end date, and expires a campaign whose end date
  has passed.
- the create use case. It builds the entity, requires the category to exist, applies the
  expiry rule again, and persists the campaign.
- the update use case. Its checks run in a fixed order: category id present, category exists,
  campaign exists, and merged dates in order. A merged end date in the past expires the
  campaign, and only the caller's patch reaches the store.
- the campaign store. Listing hides soft-deleted rows, lookup by id does not, an update is a
  field-wise patch, and a delete only stamps `deletedAt`.
- the category store. It has plain create, read, update and delete, and a delete removes the row.

Dates are instants in integer milliseconds, compared as numbers. The current time is a
parameter (`now`). The stores are classes that hold a `map` from id to row and an id counter,
and their methods update these fields in place. The campaign store's writes are also given as
a pure function `Apply` over the table. With `Replay`, the lemmas use it to state what holds
after any sequence of writes.

A partial campaign, which is TypeScript's `Partial<CampaignEntity>`, is the datatype
`CampaignData`. Each field is optional, and a field the caller left out is `None`. Errors are
a `Result` whose `Error` cases carry the messages the code throws (`Common.Message`).

Three behaviours of the code are worth stating:

- On create, the date-order error comes before the category check, because the entity is
  built first.
- A campaign expires only when its end date is strictly before now. An end date equal to now
  does not expire it.
- Lookup by id returns soft-deleted campaigns. So an update of a soft-deleted campaign succeeds.

The module `Scenarios` is a client of the use cases and the stores. It proves each expected
outcome from the contracts alone. Three of its scenarios match the repository's tests: a
campaign kept ACTIVE, a campaign expired on create, and an inverted range refused. The others
follow from the code as written: an update without a category id refused, an update that
moves the end date before the start refused, and a soft-deleted campaign that is hidden from
the listing but still found by id.

## Model

| member | source | states |
|---|---|---|
| Campaigns.NewCampaignEntity | api/src/v1/campaigns/domain/entities/campaign.entity.ts:65-79 | fails with the date-order error exactly when both dates are present and start > end (equal dates accepted, past or not); otherwise createdAt = updatedAt = now whatever was supplied, name/categoryId/dates/deletedAt are copied, status is EXPIRED when endDate < now and the supplied status otherwise |
| Campaigns.MergeLaws | api/src/v1/campaigns/application/use-cases/update-campaign.use-case.ts:32 | the spread `{...row, ...patch}` keeps the id, lets every field the patch carries override the stored one, keeps every field the patch leaves out, is the identity for the empty patch and is idempotent |
| CampaignStore.ListingIsLiveRows | api/src/v1/campaigns/infrastructure/repositories/campaign.repository.ts:24-42 | a row is listed by findAll exactly when findById returns it and its deletedAt is null |
| CampaignStore.StampHidesRow | api/src/v1/campaigns/infrastructure/repositories/campaign.repository.ts:24-63 | after a delete the row leaves the listing and every other listed row stays; findById still returns it, with deletedAt = now |
| CampaignStore.StampTwiceRestamps | api/src/v1/campaigns/infrastructure/repositories/campaign.repository.ts:55-63 | a second delete of the same id re-stamps deletedAt with the later time and changes nothing else |
| CampaignStore.InsertListsRow | api/src/v1/campaigns/infrastructure/repositories/campaign.repository.ts:13-33 | an insert under a fresh id adds exactly that row to the listing (if it is live) and findById returns it |
| CampaignStore.ReplayKeepsRows | api/src/v1/campaigns/infrastructure/repositories/campaign.repository.ts:13-63 | no sequence of creates, updates and deletes removes a row, and every row stays under its own id |
| CampaignStore.ReplayKeepsDeleted | api/src/v1/campaigns/infrastructure/repositories/campaign.repository.ts:24-63 | once soft-deleted, a campaign stays deleted and never reappears in findAll, whatever creates, updates and deletes follow, none of which can set deletedAt back to null |
| CampaignStore.ListedIdsAreLive | api/src/v1/campaigns/infrastructure/repositories/campaign.repository.ts:24-33 | no listed row carries the id of a soft-deleted row |
| CampaignStore.CampaignRepository.Create | api/src/v1/campaigns/infrastructure/repositories/campaign.repository.ts:13-22 | inserts exactly one row, under an id not used before, carrying every field of the entity; an entity missing a required column is refused and the table is unchanged |
| CampaignStore.CampaignRepository.FindAll | api/src/v1/campaigns/infrastructure/repositories/campaign.repository.ts:24-33 | returns exactly the rows whose deletedAt is null |
| CampaignStore.CampaignRepository.FindById | api/src/v1/campaigns/infrastructure/repositories/campaign.repository.ts:35-42 | returns the row with that id, soft-deleted or not, or nothing |
| CampaignStore.CampaignRepository.Update | api/src/v1/campaigns/infrastructure/repositories/campaign.repository.ts:44-53 | overwrites only the fields present in the patch, on that row only, and returns the new row; a missing id is refused with the table unchanged |
| CampaignStore.CampaignRepository.Delete | api/src/v1/campaigns/infrastructure/repositories/campaign.repository.ts:55-63 | sets only deletedAt := now, keeps every row and returns true; a missing id is refused |
| CategoryStore.CategoryRepository.Create | api/src/v1/categories/infrastructure/repositories/category.repository.ts:12-16 | stores a category with the given name under a fresh id and changes no other row |
| CategoryStore.CategoryRepository.FindAll | api/src/v1/categories/infrastructure/repositories/category.repository.ts:18-20 | returns every stored category, unfiltered, and nothing else |
| CategoryStore.CategoryRepository.FindById | api/src/v1/categories/infrastructure/repositories/category.repository.ts:22-26 | returns the category for an existing id and nothing otherwise |
| CategoryStore.CategoryRepository.Update | api/src/v1/categories/infrastructure/repositories/category.repository.ts:28-33 | changes only the name of that row, and only when the patch carries one; a missing id is refused |
| CategoryStore.CategoryRepository.Delete | api/src/v1/categories/infrastructure/repositories/category.repository.ts:35-40 | removes the row entirely and returns true, so a later findById finds nothing; a missing id is refused |
| CreateCampaign.CreateCampaignUseCase.Execute | api/src/v1/campaigns/application/use-cases/create-campaign.use-case.ts:15-37 | an inverted date range fails with the date-order error whatever the category table holds; then a missing category fails with "Category not found"; every failure persists nothing; a success persists exactly one new row with the request's fields, timestamps = now, its category existing, dates in order, status EXPIRED when endDate is before either clock reading and the requested status otherwise; the table keeps its dates in order |
| UpdateCampaign.UpdateCampaignUseCase.Execute | api/src/v1/campaigns/application/use-cases/update-campaign.use-case.ts:15-48 | fails, in this order, with "Category Id is required" (absent or 0), "Category not found", "Campaign not found", then the date-order error on the merged record, and a failure issues no update; a success changes only that row, to the stored row patched by the caller's patch with at most the status replaced by EXPIRED when the merged endDate < now; the table keeps its dates in order |
| UpdateCampaign.NormalisedExpires | api/src/v1/campaigns/application/use-cases/update-campaign.use-case.ts:32-47 | expiring the patch (not the merged record) still gives the stored row status EXPIRED, and the patch sent differs from the caller's in the status alone |

## Left out

- HTTP controllers, DTOs and their validation decorators, module wiring, bootstrap, Swagger,
  logging and the browser client. They are transport, framework and UI code. Ids never come
  from a request: the request whitelist in `api/src/main.ts` refuses, with a 400, any body key
  the DTOs do not declare. So `CampaignData`
  has no `id`, and the stores assign ids from a counter that starts at 1, like an
  auto-increment key. So no generated category id is the falsy 0 that the update use case
  refuses.
- The ORM soft-delete extension. It is never activated (its `$extends` result is discarded),
  so category deletes stay hard deletes and reads are not filtered.
- The pass-through use cases (get, get-by-id, delete for campaigns; all category use cases).
  They are the store operations themselves.
- The database schema is not part of this model. The model treats name, status, dates,
  categoryId and both timestamps as required columns without defaults. It does not model
  automatic `updatedAt` stamping on update, or foreign-key checks. One consequence: deleting a
  category that campaigns still reference is not refused.
- The `startDate ?? new Date(startDate)` fallback in the store's create. An absent date is
  instead refused as a missing value.
- Relation includes (`include: { category: true }`). They are reduced to the `categoryId` field.
- Campaigns.NewCampaignEntity: the constructor reads the clock three times, and they are
  modelled as one instant `now`. The create use case's later clock reading is a separate
  parameter, `recheckNow`.
- CampaignStore.CampaignRepository.Update: a patch cannot set `deletedAt` back to null. In
  `CampaignData`, `None` means "key absent", so un-deleting through a patch is not representable.
- CampaignStore.ReplayKeepsDeleted: covers only write sequences that never set `deletedAt` back
  to null. Through `update`, a `Partial<CampaignEntity>` with `deletedAt: null` would un-delete
  a row. Neither campaign DTO declares `deletedAt`, and the whitelist in `api/src/main.ts`
  refuses undeclared keys, so no request can send one.
- UpdateCampaign.UpdateCampaignUseCase.Execute: a patch field is either absent (`None`) or
  carries a value. A key present with the value `undefined` is not modelled, and it would act
  differently: the spread copies `undefined` over the stored value. A merged `startDate` or
  `endDate` of `undefined` skips the date-order check, while the ORM ignores `undefined` and
  keeps the stored date. For example, a stored range 10..20 patched with `startDate: undefined,
  endDate: 5` would be written as 10..5. An `endDate: undefined` also skips expiry, because
  `new Date(undefined) < now` is false. The contract "the table keeps its dates in order"
  relies on this encoding. A request body is parsed from JSON, which has no `undefined`, so
  such a key can only come from how the DTO class is compiled, and that build configuration is
  not part of this model.
- UpdateCampaign.UpdateCampaignUseCase.Execute: the code sets `status = EXPIRED` on the
  caller's own patch object (`update-campaign.use-case.ts:42`), so the caller sees the change.
  The model updates a local copy, so that mutation and any aliasing of the patch are not
  captured.
- CreateCampaign.CreateCampaignUseCase.Execute: when `categoryId` is absent, the ORM rejects
  the lookup itself. This is modelled as the `MissingValue` error and not "Category not found".
- Asynchrony: every call is treated as sequential, and concurrent requests are not modelled.
- Error messages raised by the ORM (`RecordNotFound`, `MissingValue`) are descriptive
  placeholders, not the ORM's exact text.
