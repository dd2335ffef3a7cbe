/**
 * The table of the live router is a plain JavaScript object (`let db = {}`),
 * so `db[collection]` also sees the members every object inherits from
 * `Object.prototype`. For those names the value is a function (or, for
 * `__proto__`, the prototype object itself): it is truthy, so the lazy
 * `db[collection] = []` is skipped, and it has neither `push` nor `filter`,
 * so the handler throws and the framework answers 500. This module models
 * the handlers as written, with that lookup; `GenericStore.Store` is the
 * intended behaviour, where every name is an ordinary collection name.
 */
module PrototypeKeys {
  import opened Json
  import opened Ids
  import opened Records
  import opened Responses

  /** The members of `Object.prototype` in a current JavaScript engine. */
  const InheritedNames: set<string> := {
    "constructor", "__proto__", "hasOwnProperty", "isPrototypeOf",
    "propertyIsEnumerable", "toLocaleString", "toString", "valueOf",
    "__defineGetter__", "__defineSetter__", "__lookupGetter__", "__lookupSetter__"
  }

  /** What `db[collection]` evaluates to. */
  datatype Slot = Own(items: seq<Item>) | InheritedMember | Undefined

  /** The handler's result: a response, or an exception (`x.push is not a function`). */
  datatype Outcome = Reply(resp: Response) | TypeError

  function Lookup(db: map<string, seq<Item>>, collection: string): (s: Slot)
    ensures s.Own? <==> collection in db
    ensures s.Own? ==> s.items == db[collection]
    ensures s.InheritedMember? <==> collection !in db && collection in InheritedNames
  {
    if collection in db then Own(db[collection])
    else if collection in InheritedNames then InheritedMember
    else Undefined
  }

  /** `!db[collection]`: only `undefined` is falsy; arrays, functions and objects are not. */
  predicate Missing(s: Slot)
  {
    s.Undefined?
  }

  /** POST `/:collection` as written: the result and the table afterwards. */
  function InsertAsWritten(db: map<string, seq<Item>>, collection: string, body: Item, now: nat)
    : (r: (Outcome, map<string, seq<Item>>))
    ensures r.0 == Reply(BadRequest) <==> !Truthy(Get(body, "rm"))
    ensures r.0 == TypeError <==> Truthy(Get(body, "rm")) && Lookup(db, collection).InheritedMember?
    ensures r.0 == Reply(BadRequest) || r.0 == TypeError ==> r.1 == db
    ensures r.0.Reply? && r.0.resp.Created? ==>
      && r.0.resp.item == NewItem(DecimalString(now), body)
      && collection in r.1
      && r.1[collection] == (if collection in db then db[collection] else []) + [r.0.resp.item]
    ensures r.0 == Reply(BadRequest) || r.0 == TypeError || (r.0.Reply? && r.0.resp.Created?)
  {
    if !Truthy(Get(body, "rm")) then (Reply(BadRequest), db)
    else
      var db1 := if Missing(Lookup(db, collection)) then db[collection := []] else db;
      var item := NewItem(DecimalString(now), body);
      match Lookup(db1, collection)
      case Own(s) => (Reply(Created(item)), db1[collection := s + [item]])
      case _ => (TypeError, db1)
  }

  /** GET `/:collection/:rm` as written: `None` when `.filter` throws. */
  function ListByOwnerAsWritten(db: map<string, seq<Item>>, collection: string, rm: string)
    : (r: Option<seq<Item>>)
    ensures r.None? <==> Lookup(db, collection).InheritedMember?
    ensures r.Some? ==> forall i | 0 <= i < |r.value| :: OwnedBy(r.value[i], rm)
    ensures r.Some? && collection !in db ==> r.value == []
  {
    match Lookup(db, collection)
    case Own(s) => Some(Owned(s, rm))
    case Undefined => Some([])
    case InheritedMember => None
  }

  /** DELETE `/:collection/:rm/:id` as written: the result and the table afterwards. */
  function DeleteAsWritten(db: map<string, seq<Item>>, collection: string, rm: string, id: string)
    : (r: (Outcome, map<string, seq<Item>>))
    ensures r.0 == TypeError <==> Lookup(db, collection).InheritedMember?
    ensures r.0 == TypeError ==> r.1 == db
    ensures r.0.Reply? ==> r.0.resp == NotFound || r.0.resp == Deleted
    ensures r.0.Reply? ==> collection in r.1 && NoMatch(r.1[collection], rm, id)
    ensures forall c | c != collection :: (c in r.1 <==> c in db) && (c in db ==> r.1[c] == db[c])
  {
    var db1 := if Missing(Lookup(db, collection)) then db[collection := []] else db;
    match Lookup(db1, collection)
    case Own(s) =>
      var after := Remaining(s, rm, id);
      (Reply(if |after| == |s| then NotFound else Deleted), db1[collection := after])
    case _ => (TypeError, db1)
  }

  /**
   * On a fresh store, every handler that touches the collection `constructor`
   * throws instead of answering, even for a valid body: the insert is not
   * stored, and the collection can never be read or emptied.
   */
  lemma ConstructorCollectionBroken(now: nat, rm: string, id: string)
    ensures InsertAsWritten(map[], "constructor", map["rm" := JStr("2023001")], now)
            == (TypeError, map[])
    ensures ListByOwnerAsWritten(map[], "constructor", rm) == None
    ensures DeleteAsWritten(map[], "constructor", rm, id) == (TypeError, map[])
  {
  }

  /**
   * Inherited names never become collections: no insert or delete, on any
   * collection, adds such a name to the table.
   */
  lemma InheritedNeverStored(db: map<string, seq<Item>>, name: string, collection: string,
                             body: Item, now: nat, rm: string, id: string)
    requires name in InheritedNames && name !in db
    ensures name !in InsertAsWritten(db, collection, body, now).1
    ensures name !in DeleteAsWritten(db, collection, rm, id).1
  {
  }

  /**
   * So on every reachable table, a list by owner or a delete on an
   * inherited name throws, and so does an insert of any body with a truthy
   * `rm` (a falsy one is answered with 400 before the lookup); each leaves
   * the table as it was.
   */
  lemma InheritedAlwaysThrows(db: map<string, seq<Item>>, name: string,
                              body: Item, now: nat, rm: string, id: string)
    requires name in InheritedNames && name !in db
    ensures Truthy(Get(body, "rm")) ==> InsertAsWritten(db, name, body, now) == (TypeError, db)
    ensures ListByOwnerAsWritten(db, name, rm) == None
    ensures DeleteAsWritten(db, name, rm, id) == (TypeError, db)
  {
  }

  /**
   * Away from the inherited names the handlers as written behave as the
   * intended store does: lazily created collections, append on insert,
   * filter and length comparison on delete.
   */
  lemma AsWrittenAgreesElsewhere(db: map<string, seq<Item>>, collection: string, body: Item, now: nat, rm: string, id: string)
    requires collection !in InheritedNames || collection in db
    ensures var old_s := if collection in db then db[collection] else [];
      && (Truthy(Get(body, "rm")) ==>
            InsertAsWritten(db, collection, body, now)
            == (Reply(Created(NewItem(DecimalString(now), body))),
                db[collection := old_s + [NewItem(DecimalString(now), body)]]))
      && ListByOwnerAsWritten(db, collection, rm) == Some(Owned(old_s, rm))
      && DeleteAsWritten(db, collection, rm, id)
         == (Reply(if NoMatch(old_s, rm, id) then NotFound else Deleted),
             db[collection := Remaining(old_s, rm, id)])
  {
    var old_s := if collection in db then db[collection] else [];
    RemainingUnchangedIff(old_s, rm, id);
    var db1 := if collection in db then db else db[collection := []];
    assert Lookup(db1, collection) == Own(old_s);
    assert db1[collection := old_s + [NewItem(DecimalString(now), body)]]
        == db[collection := old_s + [NewItem(DecimalString(now), body)]];
    assert db1[collection := Remaining(old_s, rm, id)] == db[collection := Remaining(old_s, rm, id)];
  }
}
