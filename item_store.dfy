/**
 * The in-memory item collection and the five request handlers over it
 * (list, get, create, update, delete), with the HTTP layer taken away:
 * a handler receives the parsed path id, the request body and the current
 * time, and answers with an Outcome.
 */
module ItemStore {
  import opened Wrappers
  import opened Text
  import opened Validation

  /** One stored record. The seed records carry no createdAt; updatedAt is
      absent until the first successful update. */
  datatype Item = Item(id: int, name: string, description: string,
                       createdAt: Option<string>, updatedAt: Option<string>)

  /** What a handler answers. `NotFound` echoes the requested id (None when
      the path segment did not parse as a number). */
  datatype Outcome =
    | Ok(item: Item)
    | Created(item: Item)
    | NotFound(id: Option<int>)
    | ValidationFailed(details: seq<string>)

  /** The HTTP status each outcome is sent with: a 2xx status exactly for
      the success outcomes (`success: true`), 404 for not-found and 400 for a
      refused body. */
  function Status(o: Outcome): (code: int)
    ensures 200 <= code < 300 <==> o.Ok? || o.Created?
    ensures code == 200 <==> o.Ok?
    ensures code == 201 <==> o.Created?
    ensures code == 404 <==> o.NotFound?
    ensures code == 400 <==> o.ValidationFailed?
  {
    match o
    case Ok(_) => 200
    case Created(_) => 201
    case NotFound(_) => 404
    case ValidationFailed(_) => 400
  }

  predicate UniqueIds(s: seq<Item>) {
    forall i, j :: 0 <= i < j < |s| ==> s[i].id != s[j].id
  }

  /** What every stored record satisfies: its name and description are
      trimmed and within the bounds validateItem enforces. */
  predicate WellFormed(item: Item) {
    && IsTrimmed(item.name) && NameRule.min <= |item.name| <= NameRule.max
    && IsTrimmed(item.description) && DescriptionRule.min <= |item.description| <= DescriptionRule.max
  }

  /** `i.id === id`: a NaN id (None) equals nothing. */
  predicate HasId(item: Item, id: Option<int>) {
    id == Some(item.id)
  }

  /** The index `findIndex` and `find` stop at: the first record with the
      requested id, or None when no record has it. */
  function IndexOf(s: seq<Item>, id: Option<int>): (r: Option<nat>)
    ensures r.Some? ==> r.value < |s| && HasId(s[r.value], id)
    ensures r.Some? ==> forall k :: 0 <= k < r.value ==> !HasId(s[k], id)
    ensures r.None? <==> forall k :: 0 <= k < |s| ==> !HasId(s[k], id)
  {
    if s == [] then None
    else if HasId(s[0], id) then Some(0)
    else match IndexOf(s[1..], id)
      case None => None
      case Some(i) => Some(i + 1)
  }

  /** `items.findIndex(i => i.id === id)`: a linear search answering -1
      when nothing matches. */
  method FindIndex(s: seq<Item>, id: Option<int>) returns (index: int)
    ensures IndexOf(s, id).None? ==> index == -1
    ensures IndexOf(s, id).Some? ==> index == IndexOf(s, id).value
  {
    var k := 0;
    while k < |s|
      invariant 0 <= k <= |s|
      invariant forall m :: 0 <= m < k ==> !HasId(s[m], id)
    {
      if HasId(s[k], id) {
        return k;
      }
      k := k + 1;
    }
    return -1;
  }

  /** `Math.max(...items.map(i => i.id), 0)`: the largest id, or 0 when
      there is none or all are negative. */
  function MaxId(s: seq<Item>): (m: int)
    ensures m >= 0
    ensures forall k :: 0 <= k < |s| ==> s[k].id <= m
    ensures m == 0 || exists k :: 0 <= k < |s| && s[k].id == m
  {
    if s == [] then 0
    else
      var rest := MaxId(s[1..]);
      if s[0].id > rest then s[0].id else rest
  }

  /** The id create assigns is greater than every id in the store, so
      appending the new record keeps the ids unique. */
  lemma NextIdFresh(s: seq<Item>, item: Item)
    requires UniqueIds(s)
    requires item.id == MaxId(s) + 1
    ensures forall k :: 0 <= k < |s| ==> s[k].id < item.id
    ensures UniqueIds(s + [item])
  {
  }

  /** With unique ids, looking up a record's own id finds that record, so
      a record just created or updated is what a later get answers. */
  lemma LookupOwnId(s: seq<Item>, k: nat)
    requires UniqueIds(s) && k < |s|
    ensures IndexOf(s, Some(s[k].id)) == Some(k)
  {
  }

  /** The store's invariant on its records: ids unique, every record well formed. */
  predicate ValidItems(s: seq<Item>) {
    UniqueIds(s) && forall k :: 0 <= k < |s| ==> WellFormed(s[k])
  }

  /** Appending a well-formed record whose id exceeds every stored id keeps the invariant. */
  lemma AppendKeepsValid(s: seq<Item>, item: Item)
    requires ValidItems(s) && WellFormed(item)
    requires forall k :: 0 <= k < |s| ==> s[k].id < item.id
    ensures ValidItems(s + [item])
  {
  }

  /** Replacing a record by a well-formed one with the same id keeps the invariant. */
  lemma ReplaceKeepsValid(s: seq<Item>, i: nat, item: Item)
    requires ValidItems(s) && i < |s| && WellFormed(item) && item.id == s[i].id
    ensures ValidItems(s[i := item])
  {
  }

  /** A record built from an accepted body is well formed. */
  lemma AcceptedBodyWellFormed(b: Body, item: Item)
    requires ValidateItem(b).isValid
    requires item.name == Trim(b.name.s) && item.description == Trim(b.description.s)
    ensures WellFormed(item)
  {
  }

  /** Sending a stored record's name and description back as a body is
      accepted, and trimming gives back the same strings. */
  lemma StoredItemRevalidates(item: Item)
    requires WellFormed(item)
    ensures ValidateItem(Body(Str(item.name), Str(item.description))) == Verdict(true, [])
    ensures Trim(item.name) == item.name && Trim(item.description) == item.description
  {
  }

  /** Removing the record at `i` keeps the ids unique and leaves no record
      with its id, so a later lookup of that id finds nothing. */
  lemma RemoveAtForgetsId(s: seq<Item>, i: nat)
    requires UniqueIds(s) && i < |s|
    ensures UniqueIds(s[..i] + s[i + 1..])
    ensures IndexOf(s[..i] + s[i + 1..], Some(s[i].id)).None?
  {
  }

  /** The store: the module-level `items` array, seeded with two records. */
  class Store {
    var items: seq<Item>

    /** Ids are unique and every record is well formed. */
    ghost predicate Valid()
      reads this
    {
      ValidItems(items)
    }

    /** The two seed records. */
    constructor ()
      ensures Valid()
      ensures items == [
        Item(1, "Sample Item 1", "This is a sample item", None, None),
        Item(2, "Sample Item 2", "Another sample item", None, None)]
    {
      items := [
        Item(1, "Sample Item 1", "This is a sample item", None, None),
        Item(2, "Sample Item 2", "Another sample item", None, None)];
    }

    /** GET /api/items: every record, in order, and the count; the ids in
        the answer are unique. */
    method List() returns (data: seq<Item>, count: nat)
      requires Valid()
      ensures data == items && count == |data|
      ensures UniqueIds(data)
    {
      data, count := items, |items|;
    }

    /** GET /api/items/:id: the first record with that id, or not-found
        echoing the id. */
    method Get(id: Option<int>) returns (r: Outcome)
      ensures r.NotFound? <==> forall k :: 0 <= k < |items| ==> !HasId(items[k], id)
      ensures r.Ok? ==> HasId(r.item, id)
      ensures match IndexOf(items, id)
        case None => r == NotFound(id)
        case Some(i) => r == Ok(items[i])
    {
      var index := FindIndex(items, id);
      if index == -1 {
        return NotFound(id);
      }
      return Ok(items[index]);
    }

    /** POST /api/items: an invalid body is refused with the validation
        errors and the store is left as it was; a valid one is appended as a
        record with the next id, the trimmed fields and `now` as createdAt. */
    method Create(body: Body, now: string) returns (r: Outcome)
      requires Valid()
      modifies this
      ensures Valid()
      ensures var v := ValidateItem(body);
        if !v.isValid then
          r == ValidationFailed(v.errors) && items == old(items)
        else
          && r == Created(Item(MaxId(old(items)) + 1, Trim(body.name.s), Trim(body.description.s), Some(now), None))
          && items == old(items) + [r.item]
      ensures r.Created? ==> forall k :: 0 <= k < |old(items)| ==> old(items)[k].id < r.item.id
    {
      var v := ValidateItem(body);
      if !v.isValid {
        return ValidationFailed(v.errors);
      }
      var item := Item(MaxId(items) + 1, Trim(body.name.s), Trim(body.description.s), Some(now), None);
      NextIdFresh(items, item);
      AcceptedBodyWellFormed(body, item);
      AppendKeepsValid(items, item);
      items := items + [item];
      return Created(item);
    }

    /** PUT /api/items/:id: not-found is decided before validation; then an
        invalid body is refused; otherwise the found record gets the trimmed
        fields and `now` as updatedAt, keeping its id and createdAt, and no
        other record changes. */
    method Update(id: Option<int>, body: Body, now: string) returns (r: Outcome)
      requires Valid()
      modifies this
      ensures Valid()
      ensures |items| == |old(items)|
      ensures match IndexOf(old(items), id)
        case None => r == NotFound(id) && items == old(items)
        case Some(i) =>
          var v := ValidateItem(body);
          if !v.isValid then
            r == ValidationFailed(v.errors) && items == old(items)
          else
            && items == old(items)[i := old(items)[i].(name := Trim(body.name.s),
                                                        description := Trim(body.description.s),
                                                        updatedAt := Some(now))]
            && r == Ok(items[i])
    {
      var index := FindIndex(items, id);
      if index == -1 {
        return NotFound(id);
      }
      var v := ValidateItem(body);
      if !v.isValid {
        return ValidationFailed(v.errors);
      }
      var item := items[index].(name := Trim(body.name.s), description := Trim(body.description.s),
                                updatedAt := Some(now));
      AcceptedBodyWellFormed(body, item);
      ReplaceKeepsValid(items, index, item);
      items := items[index := item];
      return Ok(item);
    }

    /** DELETE /api/items/:id: not-found leaves the store as it was;
        otherwise the found record is spliced out, the others keep their
        order, and the removed record is answered as it was. */
    method Delete(id: Option<int>) returns (r: Outcome)
      requires Valid()
      modifies this
      ensures Valid()
      ensures match IndexOf(old(items), id)
        case None => r == NotFound(id) && items == old(items)
        case Some(i) =>
          && r == Ok(old(items)[i])
          && items == old(items)[..i] + old(items)[i + 1..]
          && |items| == |old(items)| - 1
      ensures r.Ok? ==> IndexOf(items, id).None?
    {
      var index := FindIndex(items, id);
      if index == -1 {
        return NotFound(id);
      }
      var item := items[index];
      RemoveAtForgetsId(items, index);
      items := items[..index] + items[index + 1..];
      return Ok(item);
    }
  }
}
