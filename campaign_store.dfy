/**
 * The campaign store: a table of campaign rows keyed by id. Listing hides
 * soft-deleted rows, lookup by id does not, an update is a field-wise patch,
 * and a delete only stamps `deletedAt`: no row is ever removed.
 */
module CampaignStore {
  import opened Common
  import opened Campaigns

  type Table = map<int, Campaign>

  /** Every row sits under its own id. */
  ghost predicate KeyedById(t: Table) {
    forall k :: k in t ==> t[k].id == k
  }

  /** The rows `findAll` returns: those with no `deletedAt`. */
  function Listing(t: Table): (r: set<Campaign>) {
    set k | k in t && t[k].deletedAt.None? :: t[k]
  }

  /** The row `findById` returns, deleted or not. */
  function Lookup(t: Table, id: int): (r: Option<Campaign>) {
    if id in t then Some(t[id]) else None
  }

  /** A write the store issues to its table. */
  datatype Write =
    | Insert(row: Campaign)                // create: refused when the id is taken
    | Patch(id: int, data: CampaignData)   // update: refused when the id has no row
    | Stamp(id: int, now: int)             // delete: refused when the id has no row

  /** The table after a write; a refused write leaves it as it was. */
  function Apply(t: Table, w: Write): (r: Table) {
    match w
    case Insert(row) => if row.id in t then t else t[row.id := row]
    case Patch(id, data) => if id in t then t[id := Merge(t[id], data)] else t
    case Stamp(id, now) => if id in t then t[id := t[id].(deletedAt := Some(now))] else t
  }

  /** The table after a sequence of writes, in order. */
  function Replay(t: Table, ws: seq<Write>): (r: Table)
    decreases |ws|
  {
    if ws == [] then t else Replay(Apply(t, ws[0]), ws[1..])
  }

  /** The fields the table requires of a new row. */
  predicate Complete(c: CampaignData) {
    && c.name.Some? && c.status.Some? && c.startDate.Some? && c.endDate.Some?
    && c.categoryId.Some? && c.createdAt.Some? && c.updatedAt.Some?
  }

  /** The row a complete entity becomes once the store gives it `id`. */
  function Row(id: int, c: CampaignData): (r: Campaign)
    requires Complete(c)
  {
    Campaign(id, c.name.value, c.status.value, c.startDate.value, c.endDate.value,
             c.categoryId.value, c.createdAt.value, c.updatedAt.value, c.deletedAt)
  }

  /** A row is listed exactly when lookup by its id finds it and it is not soft-deleted. */
  lemma ListingIsLiveRows(t: Table, c: Campaign)
    requires KeyedById(t)
    ensures c in Listing(t) <==> Lookup(t, c.id) == Some(c) && c.deletedAt.None?
  {
  }

  /**
   * A delete hides the row from the listing, leaves every other listed row
   * in place, and lookup by id still finds the row, now stamped.
   */
  lemma StampHidesRow(t: Table, id: int, now: int)
    requires KeyedById(t) && id in t
    ensures Listing(Apply(t, Stamp(id, now))) == Listing(t) - {t[id]}
    ensures Lookup(Apply(t, Stamp(id, now)), id) == Some(t[id].(deletedAt := Some(now)))
  {
    var t' := Apply(t, Stamp(id, now));
    forall c | c in Listing(t')
      ensures c in Listing(t) - {t[id]}
    {
      var k :| k in t' && t'[k].deletedAt.None? && c == t'[k];
      assert k != id;
    }
    forall c | c in Listing(t) - {t[id]}
      ensures c in Listing(t')
    {
      var k :| k in t && t[k].deletedAt.None? && c == t[k];
      assert k != id;
      assert c == t'[k];
    }
  }

  /** A second delete of the same id only moves the stamp to the later time. */
  lemma StampTwiceRestamps(t: Table, id: int, first: int, second: int)
    requires id in t
    ensures Apply(Apply(t, Stamp(id, first)), Stamp(id, second)) == Apply(t, Stamp(id, second))
    ensures Apply(Apply(t, Stamp(id, first)), Stamp(id, second))[id].deletedAt == Some(second)
  {
  }

  /** An insert under a fresh id lists the new row if it is live, and nothing else changes. */
  lemma InsertListsRow(t: Table, row: Campaign)
    requires KeyedById(t) && row.id !in t
    ensures Listing(Apply(t, Insert(row))) == Listing(t) + (if row.deletedAt.None? then {row} else {})
    ensures Lookup(Apply(t, Insert(row)), row.id) == Some(row)
  {
    var t' := Apply(t, Insert(row));
    forall c | c in Listing(t')
      ensures c in Listing(t) + (if row.deletedAt.None? then {row} else {})
    {
      var k :| k in t' && t'[k].deletedAt.None? && c == t'[k];
      if k != row.id {
        assert k in t && t[k].deletedAt.None? && c == t[k];
        assert c in Listing(t);
      } else {
        assert c == row && row.deletedAt.None?;
      }
    }
    forall c | c in Listing(t)
      ensures c in Listing(t')
    {
      var k :| k in t && t[k].deletedAt.None? && c == t[k];
      assert c == t'[k];
    }
    assert t'[row.id] == row;
  }

  /**
   * Whatever the store writes, no row is removed and every row stays under
   * its own id.
   */
  lemma {:induction false} ReplayKeepsRows(t: Table, ws: seq<Write>)
    requires KeyedById(t)
    ensures t.Keys <= Replay(t, ws).Keys
    ensures KeyedById(Replay(t, ws))
    decreases |ws|
  {
    if ws != [] {
      ReplayKeepsRows(Apply(t, ws[0]), ws[1..]);
    }
  }

  /**
   * Once soft-deleted, a campaign stays deleted and never returns to the
   * listing, whatever creates, patches and deletes follow. A patch may move
   * `deletedAt` to another date, but no write clears it back to null.
   */
  lemma {:induction false} ReplayKeepsDeleted(t: Table, ws: seq<Write>, id: int)
    requires KeyedById(t) && id in t && t[id].deletedAt.Some?
    ensures id in Replay(t, ws) && Replay(t, ws)[id].deletedAt.Some?
    ensures forall c :: c in Listing(Replay(t, ws)) ==> c.id != id
    decreases |ws|
  {
    if ws == [] {
      ListedIdsAreLive(t, id);
    } else {
      ReplayKeepsDeleted(Apply(t, ws[0]), ws[1..], id);
    }
  }

  /** No listed row carries the id of a soft-deleted row. */
  lemma ListedIdsAreLive(t: Table, id: int)
    requires KeyedById(t) && id in t && t[id].deletedAt.Some?
    ensures forall c :: c in Listing(t) ==> c.id != id
  {
  }

  /** The campaign table, updated in place by the store's writes. */
  class CampaignRepository {
    var rows: Table
    var nextId: int

    /** Rows sit under their own ids, and ids are generated from 1 upwards, below `nextId`. */
    ghost predicate Valid()
      reads this
    {
      KeyedById(rows) && 1 <= nextId && forall k :: k in rows ==> 1 <= k < nextId
    }

    constructor ()
      ensures Valid() && rows == map[]
    {
      rows := map[];
      nextId := 1;
    }

    /**
     * `create`: insert a row carrying every field of the entity, under the
     * next generated id. An entity missing a required column is refused.
     */
    method Create(campaign: CampaignData) returns (r: Result<Campaign>)
      requires Valid()
      modifies this
      ensures Valid()
      ensures r.Success? <==> Complete(campaign)
      ensures r.Failure? ==> r.error == MissingValue && unchanged(this)
      ensures r.Success? ==>
        && r.value.id !in old(rows)
        && r.value == Row(r.value.id, campaign)
        && rows == Apply(old(rows), Insert(r.value))
    {
      if !Complete(campaign) {
        return Failure(MissingValue);
      }
      var row := Row(nextId, campaign);
      rows := rows[nextId := row];
      nextId := nextId + 1;
      return Success(row);
    }

    /** `findAll`: every row that is not soft-deleted. */
    method FindAll() returns (r: set<Campaign>)
      ensures r == Listing(rows)
    {
      r := Listing(rows);
    }

    /** `findById`: the row with that id, soft-deleted or not, or nothing. */
    method FindById(id: int) returns (r: Option<Campaign>)
      ensures r == Lookup(rows, id)
    {
      r := Lookup(rows, id);
    }

    /** `update`: overwrite the fields present in the patch on the row with that id. */
    method Update(id: int, patch: CampaignData) returns (r: Result<Campaign>)
      requires Valid()
      modifies this
      ensures Valid() && nextId == old(nextId)
      ensures rows == Apply(old(rows), Patch(id, patch))
      ensures r.Success? <==> id in old(rows)
      ensures r.Success? ==> r.value == Merge(old(rows)[id], patch) && rows[id] == r.value
      ensures r.Failure? ==> r.error == RecordNotFound
    {
      if id !in rows {
        return Failure(RecordNotFound);
      }
      var row := Merge(rows[id], patch);
      rows := rows[id := row];
      return Success(row);
    }

    /** `delete`: a soft delete that stamps `deletedAt` with `now` and keeps the row. */
    method Delete(id: int, now: int) returns (r: Result<bool>)
      requires Valid()
      modifies this
      ensures Valid() && nextId == old(nextId)
      ensures rows == Apply(old(rows), Stamp(id, now))
      ensures r.Success? <==> id in old(rows)
      ensures r.Success? ==> r.value && rows.Keys == old(rows).Keys
      ensures r.Success? ==> rows[id] == old(rows)[id].(deletedAt := Some(now))
      ensures r.Failure? ==> r.error == RecordNotFound
    {
      if id !in rows {
        return Failure(RecordNotFound);
      }
      rows := rows[id := rows[id].(deletedAt := Some(now))];
      return Success(true);
    }
  }
}
