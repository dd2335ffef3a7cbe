/**
 * The live router: a process-wide table from a collection name to the
 * ordered list of items in that collection, created lazily on first use.
 */
module GenericStore {
  import opened Json
  import opened Ids
  import opened Selection
  import opened Records
  import opened Responses

  class Store {
    /** The table `db`: collection name to its items, in insertion order. */
    var db: map<string, seq<Item>>

    /**
     * Every item in every collection passed the insert check and has an
     * `id`: kept by Insert and Delete, and passed on to what the reads return.
     */
    ghost predicate Valid()
      reads this
    {
      forall c | c in db :: AllStored(db[c])
    }

    constructor ()
      ensures Valid() && db == map[]
    {
      db := map[];
    }

    /** GET `/:collection`: the collection's items, or `[]` for a name never used. */
    function ListAll(collection: string): (r: seq<Item>)
      reads this
      ensures collection in db ==> r == db[collection]
      ensures collection !in db ==> r == []
      ensures Valid() ==> AllStored(r)
    {
      if collection in db then db[collection] else []
    }

    /**
     * GET `/:collection/:rm`: the items of the collection whose `rm` is the
     * given string, in stored order and with nothing else.
     */
    function ListByOwner(collection: string, rm: string): (r: seq<Item>)
      reads this
      ensures |r| <= |ListAll(collection)|
      ensures forall i | 0 <= i < |r| :: OwnedBy(r[i], rm)
      ensures forall x | x in ListAll(collection) && OwnedBy(x, rm) :: x in r
      ensures IsSubsequence(r, ListAll(collection))
      ensures forall x {:trigger multiset(r)[x]} :: multiset(r)[x] == if OwnedBy(x, rm) then multiset(ListAll(collection))[x] else 0
      ensures Valid() ==> AllStored(r)
    {
      OwnedExactly(ListAll(collection), rm);
      Owned(ListAll(collection), rm)
    }

    /**
     * POST `/:collection` with clock reading `now`. A falsy `rm` is refused
     * before anything is touched; otherwise the collection is created if
     * missing and `{ id, ...body }` is appended to it and returned.
     */
    method Insert(collection: string, body: Item, now: nat) returns (resp: Response)
      requires Valid()
      modifies this
      ensures Valid()
      ensures !Truthy(Get(body, "rm")) ==> resp == BadRequest && db == old(db)
      ensures Truthy(Get(body, "rm")) ==>
        && resp == Created(NewItem(DecimalString(now), body))
        && db == old(db)[collection := old(ListAll(collection)) + [resp.item]]
      ensures Truthy(Get(body, "rm")) ==>
        && collection in db
        && |db[collection]| == |old(ListAll(collection))| + 1
        && (collection !in old(db) ==> db[collection] == [resp.item])
      ensures forall c | c != collection :: c in db <==> c in old(db)
      ensures forall c | c != collection && c in db :: db[c] == old(db)[c]
    {
      if !Truthy(Get(body, "rm")) {
        return BadRequest;
      }
      if collection !in db {
        db := db[collection := []];
      }
      var id := DecimalString(now);
      var newItem := NewItem(id, body);
      NewItemStored(id, body);
      db := db[collection := db[collection] + [newItem]];
      resp := Created(newItem);
    }

    /**
     * DELETE `/:collection/:rm/:id`: creates the collection if missing,
     * filters out every item matching both `rm` and `id`, and reports
     * not found when the length did not change.
     */
    method Delete(collection: string, rm: string, id: string) returns (resp: Response)
      requires Valid()
      modifies this
      ensures Valid()
      ensures db == old(db)[collection := Remaining(old(ListAll(collection)), rm, id)]
      ensures resp == NotFound <==> NoMatch(old(ListAll(collection)), rm, id)
      ensures resp == NotFound || resp == Deleted
      ensures resp == NotFound ==> db[collection] == old(ListAll(collection))
      ensures collection !in old(db) ==> resp == NotFound && db == old(db)[collection := []]
      ensures forall c | c != collection :: c in db <==> c in old(db)
      ensures forall c | c != collection && c in db :: db[c] == old(db)[c]
    {
      if collection !in db {
        db := db[collection := []];
      }
      var before := |db[collection]|;
      RemainingStored(db[collection], rm, id);
      RemainingUnchangedIff(db[collection], rm, id);
      db := db[collection := Remaining(db[collection], rm, id)];
      if |db[collection]| == before {
        resp := NotFound;
      } else {
        resp := Deleted;
      }
    }
  }

  /** Repeating a delete: whatever the first one did, the second finds nothing. */
  method DeleteTwice(store: Store, collection: string, rm: string, id: string)
    returns (first: Response, second: Response)
    requires store.Valid()
    modifies store
    ensures store.Valid()
    ensures second == NotFound
    ensures store.db == old(store.db)[collection := Remaining(old(store.ListAll(collection)), rm, id)]
  {
    first := store.Delete(collection, rm, id);
    RemainingTwice(old(store.ListAll(collection)), rm, id);
    second := store.Delete(collection, rm, id);
  }

  /**
   * Create, list by owner, delete, list again on a fresh store: the item
   * comes back with its timestamp id, the delete by that id succeeds, and
   * the owner's list is empty afterwards.
   */
  method LivrosScenario(now: nat)
    returns (created: Response, listed: seq<Item>, deleted: Response, after: seq<Item>)
    ensures created.Created?
    ensures created.item == map["id" := JStr(DecimalString(now)), "rm" := JStr("2023001"), "titulo" := JStr("X")]
    ensures listed == [created.item]
    ensures deleted == Deleted
    ensures after == []
  {
    var store := new Store();
    var body := map["rm" := JStr("2023001"), "titulo" := JStr("X")];
    var id := DecimalString(now);
    var item := NewItem(id, body);
    assert item == map["id" := JStr(id), "rm" := JStr("2023001"), "titulo" := JStr("X")];
    assert Truthy(Get(body, "rm"));
    created := store.Insert("livros", body, now);
    assert created == Created(item) && store.db == map["livros" := [item]];
    assert Matches(item, "2023001", id);
    OwnedAppend([], item, "2023001");
    listed := store.ListByOwner("livros", "2023001");
    assert listed == [item];
    assert Remaining([item], "2023001", id) == [] by {
      assert Keep([item][1..], Survives("2023001", id)) == [];
    }
    deleted := store.Delete("livros", "2023001", id);
    assert deleted == Deleted && store.db == map["livros" := []];
    after := store.ListByOwner("livros", "2023001");
  }
}
