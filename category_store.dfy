/**
 * The category store: plain create, read, update and delete over a table of
 * named categories. Unlike campaigns, a delete removes the row.
 */
module CategoryStore {
  import opened Common

  datatype Category = Category(id: int, name: string)

  /** The category table, updated in place by the store's writes. */
  class CategoryRepository {
    var rows: map<int, Category>
    var nextId: int

    /** Rows sit under their own ids, and ids are generated from 1 upwards, below `nextId`. */
    ghost predicate Valid()
      reads this
    {
      1 <= nextId && forall k :: k in rows ==> rows[k].id == k && 1 <= k < nextId
    }

    constructor ()
      ensures Valid() && rows == map[]
    {
      rows := map[];
      nextId := 1;
    }

    /** `create`: store a category with the given name under the next generated id. */
    method Create(name: Option<string>) returns (r: Result<Category>)
      requires Valid()
      modifies this
      ensures Valid()
      ensures r.Success? <==> name.Some?
      ensures r.Failure? ==> r.error == MissingValue && rows == old(rows) && nextId == old(nextId)
      ensures r.Success? ==>
        && r.value.id !in old(rows)
        && r.value.name == name.value
        && rows == old(rows)[r.value.id := r.value]
    {
      if name.None? {
        return Failure(MissingValue);
      }
      var category := Category(nextId, name.value);
      rows := rows[nextId := category];
      nextId := nextId + 1;
      return Success(category);
    }

    /** `findAll`: every stored category, with no filtering. */
    method FindAll() returns (r: set<Category>)
      requires Valid()
      ensures forall k :: k in rows ==> rows[k] in r
      ensures forall c :: c in r ==> c.id in rows && rows[c.id] == c
    {
      r := set k | k in rows :: rows[k];
    }

    /** `findById`: the category with that id, or nothing. */
    method FindById(id: int) returns (r: Option<Category>)
      ensures r.Some? <==> id in rows
      ensures r.Some? ==> r.value == rows[id]
    {
      if id in rows {
        r := Some(rows[id]);
      } else {
        r := None;
      }
    }

    /** `update`: replace the name when the patch carries one; the row keeps its id. */
    method Update(id: int, name: Option<string>) returns (r: Result<Category>)
      requires Valid()
      modifies this
      ensures Valid() && nextId == old(nextId)
      ensures r.Success? <==> id in old(rows)
      ensures r.Failure? ==> r.error == RecordNotFound && rows == old(rows)
      ensures r.Success? ==>
        && r.value == Category(id, name.GetOr(old(rows)[id].name))
        && rows == old(rows)[id := r.value]
    {
      if id !in rows {
        return Failure(RecordNotFound);
      }
      var category := rows[id].(name := name.GetOr(rows[id].name));
      rows := rows[id := category];
      return Success(category);
    }

    /** `delete`: remove the row entirely; a later lookup of that id finds nothing. */
    method Delete(id: int) returns (r: Result<bool>)
      requires Valid()
      modifies this
      ensures Valid() && nextId == old(nextId)
      ensures r.Success? <==> id in old(rows)
      ensures r.Failure? ==> r.error == RecordNotFound && rows == old(rows)
      ensures r.Success? ==> r.value && id !in rows && rows == old(rows) - {id}
    {
      if id !in rows {
        return Failure(RecordNotFound);
      }
      rows := rows - {id};
      return Success(true);
    }
  }
}
