/**
 * Clients of the store, using nothing but the handlers' contracts.
 * ListSeeded, GetCases, CreateValid and CreateInvalid walk through the item
 * cases of src/__tests__/api.test.js; UpdateThenDelete, IdResetsWhenEmpty and
 * IdReusedAfterMaxDeleted show further behaviour the handlers promise.
 */
module Scenarios {
  import opened Wrappers
  import opened Text
  import opened Validation
  import opened ItemStore

  /** GET /api/items on the seeded store answers a non-empty list: both seed records. */
  method ListSeeded()
  {
    var store := new Store();
    var data, count := store.List();
    assert count == 2 && |data| > 0;
    assert data[0].id == 1 && data[1].id == 2;
  }

  /** GET /api/items/1 on the seeded store finds record 1; /api/items/999 is not found. */
  method GetCases()
  {
    var store := new Store();
    var r := store.Get(Some(1));
    assert r == Ok(Item(1, "Sample Item 1", "This is a sample item", None, None));
    r := store.Get(Some(999));
    assert r == NotFound(Some(999)) && Status(r) == 404;
  }

  /** POST with a valid body gets id 3 and keeps the name as sent. */
  method CreateValid()
  {
    var store := new Store();
    TrimmedIsFixpoint("Test Item");
    TrimmedIsFixpoint("This is a test item");
    var r := store.Create(Body(Str("Test Item"), Str("This is a test item")), "t1");
    assert r.Created? && Status(r) == 201;
    assert r.item.id == 3 && r.item.name == "Test Item";
  }

  /** POST with a missing name, a short name or a missing description is refused. */
  method CreateInvalid()
  {
    var store := new Store();
    var r := store.Create(Body(Absent, Str("No name provided")), "t2");
    assert r.ValidationFailed? && r.details[0] == "name is required and must be a string";
    TrimmedIsFixpoint("ab");
    r := store.Create(Body(Str("ab"), Str("Short name")), "t3");
    assert r.ValidationFailed? && r.details[0] == "name must be at least 3 characters";
    r := store.Create(Body(Str("Test Item"), Absent), "t4");
    assert r.ValidationFailed? && Status(r) == 400;
  }

  /** PUT on an absent id reports not-found even with an invalid body; PUT
      on id 1 keeps its id and createdAt and sets updatedAt. DELETE then
      answers the record as it was, and a later GET finds nothing. */
  method UpdateThenDelete()
  {
    var store := new Store();
    var r := store.Update(Some(999), Body(NonString, NonString), "t5");
    assert r == NotFound(Some(999));
    TrimmedIsFixpoint("Test Item");
    TrimmedIsFixpoint("This is a test item");
    r := store.Update(Some(1), Body(Str("Test Item"), Str("This is a test item")), "t6");
    assert r == Ok(Item(1, "Test Item", "This is a test item", None, Some("t6")));
    r := store.Delete(Some(1));
    assert r == Ok(Item(1, "Test Item", "This is a test item", None, Some("t6")));
    r := store.Get(Some(1));
    assert r == NotFound(Some(1));
  }

  /** Once every record is gone, the next id is 1 again. */
  method IdResetsWhenEmpty()
  {
    var store := new Store();
    var r := store.Delete(Some(1));
    r := store.Delete(Some(2));
    var data, count := store.List();
    assert count == 0;
    r := store.Create(Body(Str("Test Item"), Str("This is a test item")), "t7");
    assert r.Created? && r.item.id == 1;
  }

  /** Ids are not reserved: deleting the record with the largest id lets the
      next create hand out that id again. */
  method IdReusedAfterMaxDeleted()
  {
    var store := new Store();
    var seeds := store.items;
    TrimmedIsFixpoint("Test Item");
    TrimmedIsFixpoint("This is a test item");
    var r := store.Create(Body(Str("Test Item"), Str("This is a test item")), "t8");
    assert r.Created? && r.item.id == 3;
    LookupOwnId(store.items, 2);
    r := store.Delete(Some(3));
    assert r.Ok? && r.item.id == 3;
    assert store.items == seeds;
    r := store.Create(Body(Str("Test Item"), Str("This is a test item")), "t9");
    assert r.Created? && r.item.id == 3;
  }
}
