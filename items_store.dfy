/**
 * The earlier, unmounted router: one process-wide list of items instead of
 * a table of collections, with create, list-by-owner and delete.
 */
module ItemsStore {
  import opened Json
  import opened Ids
  import opened Selection
  import opened Records
  import opened Responses

  class ItemList {
    /** The list `items`, in insertion order. */
    var items: seq<Item>

    /**
     * Every item passed the create check and has an `id`: kept by Insert
     * and Delete, and passed on to what ListByOwner returns.
     */
    ghost predicate Valid()
      reads this
    {
      AllStored(items)
    }

    constructor ()
      ensures Valid() && items == []
    {
      items := [];
    }

    /**
     * POST `/` with clock reading `now`: refuses a falsy `rm`, otherwise
     * appends `{ id, ...body }` and returns that same item.
     */
    method Insert(body: Item, now: nat) returns (resp: Response)
      requires Valid()
      modifies this
      ensures Valid()
      ensures !Truthy(Get(body, "rm")) ==> resp == BadRequest && items == old(items)
      ensures Truthy(Get(body, "rm")) ==>
        && resp == Created(NewItem(DecimalString(now), body))
        && items == old(items) + [resp.item]
      ensures Truthy(Get(body, "rm")) ==>
        && |items| == |old(items)| + 1
        && items[|items| - 1] == resp.item
        && items[..|old(items)|] == old(items)
    {
      if !Truthy(Get(body, "rm")) {
        return BadRequest;
      }
      var id := DecimalString(now);
      var newItem := NewItem(id, body);
      NewItemStored(id, body);
      items := items + [newItem];
      resp := Created(newItem);
    }

    /** GET `/:rm`: the items whose `rm` is the given string, in stored order. */
    function ListByOwner(rm: string): (r: seq<Item>)
      reads this
      ensures |r| <= |items|
      ensures forall i | 0 <= i < |r| :: OwnedBy(r[i], rm)
      ensures forall x | x in items && OwnedBy(x, rm) :: x in r
      ensures IsSubsequence(r, items)
      ensures forall x {:trigger multiset(r)[x]} :: multiset(r)[x] == if OwnedBy(x, rm) then multiset(items)[x] else 0
      ensures Valid() ==> AllStored(r)
    {
      OwnedExactly(items, rm);
      Owned(items, rm)
    }

    /**
     * DELETE `/:rm/:id`: filters out every item matching both `rm` and
     * `id`; not found when the length did not change.
     */
    method Delete(rm: string, id: string) returns (resp: Response)
      requires Valid()
      modifies this
      ensures Valid()
      ensures items == Remaining(old(items), rm, id)
      ensures resp == NotFound <==> NoMatch(old(items), rm, id)
      ensures resp == NotFound || resp == Deleted
      ensures resp == NotFound ==> items == old(items)
    {
      var before := |items|;
      RemainingStored(items, rm, id);
      RemainingUnchangedIff(items, rm, id);
      items := Remaining(items, rm, id);
      if |items| == before {
        resp := NotFound;
      } else {
        resp := Deleted;
      }
    }
  }

  /** A second identical delete after any first one reports not found. */
  method DeleteTwice(list: ItemList, rm: string, id: string) returns (first: Response, second: Response)
    requires list.Valid()
    modifies list
    ensures list.Valid()
    ensures second == NotFound
    ensures list.items == Remaining(old(list.items), rm, id)
  {
    first := list.Delete(rm, id);
    RemainingTwice(old(list.items), rm, id);
    second := list.Delete(rm, id);
  }
}
