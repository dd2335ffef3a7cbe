# Generic items API: the in-memory collection store

This project models the storage logic of a small HTTP API for open-schema
items tagged with an owner identifier, `rm`. The live router
(`routes/generic.js`) keeps a process-wide table from a collection name to
an ordered list of items. It has four operations:

- insert: rejects a falsy `rm`, creates the collection lazily, and appends
  `{ id, ...body }` with a timestamp `id`;
- list all: the collection, or `[]` when the name was never used;
- list by owner: an order-preserving filter on `item.rm === rm`;
- delete: filters out every item with that `rm` and `id`, and reports
  not found when the list length did not change.

The earlier router (`routes/items.js`) does the same on a single list. It is
not mounted by `server.js`, but its logic is modelled too.

The mutable table and list are classes. `GenericStore.Store` holds
`db: map<string, seq<Item>>` and `ItemsStore.ItemList` holds
`items: seq<Item>`. The handlers that change state are methods whose
postconditions give the whole new state in terms of the old one. The read
handlers are functions. The filters are one function, `Selection.Keep`,
which is the semantics of `Array.prototype.filter`. Lemmas characterise it
completely: its result is a subsequence of the input, it keeps every passing
element with its multiplicity, it drops every failing one, and it is the only
sequence that does all three (`Selection.KeepUnique`). Item values are a small JSON datatype. `rm` is
checked with JavaScript truthiness (`Json.Truthy`), including a JSON number
so small that it parses to the double 0. The clock reading
`Date.now()` is a parameter `now: nat`, and the identifier is its decimal
spelling (`Ids.DecimalString`), proved to round-trip.

Two behaviours of the code are worth stating plainly:

- `!rm` (routes/generic.js:60, routes/items.js:52) refuses a missing `rm`,
  and also `null`, `false`, `""` and any number that parses to 0. It accepts
  any non-empty string, any other number, `true`, and any array or object,
  although the `@swagger` schema of both files declares `rm` a required
  string.
- A delete on an unknown collection answers 404 and also adds that
  collection as `[]` (routes/generic.js:153).

## Model

| member | source | states |
|---|---|---|
| GenericStore.Store.constructor | routes/generic.js:5 | the table starts empty and every item invariant holds |
| GenericStore.Store.Insert | routes/generic.js:56-69 | falsy `rm`: 400 and the table is untouched, with no collection created; otherwise the collection (created if missing) gains exactly `{id, ...body}` at its end, that same item is returned with 201, and no other collection changes |
| GenericStore.Store.ListAll | routes/generic.js:88-91 | the stored list of a known collection, and `[]` for an unknown one; every item returned has a truthy `rm` and an `id` |
| GenericStore.Store.ListByOwner | routes/generic.js:116-120 | an order-preserving subsequence of the collection, no longer than it; it holds each item whose `rm` is that string exactly as often as the collection does, and nothing else |
| GenericStore.Store.Delete | routes/generic.js:151-165 | the collection becomes the old one minus every item matching both `rm` and `id`; 404 iff nothing matched, 200 otherwise, also when several matched; an unknown collection answers 404 and is added as `[]`; no other collection changes |
| GenericStore.DeleteTwice | routes/generic.js:151-165 | a second identical delete always answers 404 |
| GenericStore.LivrosScenario | routes/generic.js:56-165 | on a fresh store, insert, list by owner, delete by the timestamp id and list again give the created item, a list holding just it, 200, and `[]` |
| ItemsStore.ItemList.constructor | routes/items.js:5 | the list starts empty |
| ItemsStore.ItemList.Insert | routes/items.js:50-58 | falsy `rm`: 400 and the list is unchanged; otherwise `{id, ...body}` becomes the last element, earlier items stay as they were, the length grows by one, and the returned item is the appended one |
| ItemsStore.ItemList.ListByOwner | routes/items.js:91-95 | an order-preserving subsequence of the list holding each item with that `rm` exactly as often as the list does, and nothing else; the list itself is only read |
| ItemsStore.ItemList.Delete | routes/items.js:160-167 | the list becomes the old one minus every item matching both `rm` and `id`; 404 iff nothing matched, and then the list equals its old value |
| ItemsStore.DeleteTwice | routes/items.js:160-167 | a second identical delete always answers 404 |
| Json.Truthy | routes/generic.js:60 | `!rm` holds exactly for an absent `rm`, `null`, `false`, `""` and a number whose nearest double is 0 (magnitude at most 2^-1075) |
| Ids.DecimalString | routes/generic.js:64 | the id is a non-empty string of decimal digits, starting with `0` only for a reading of 0 |
| Ids.DecimalRoundTrip | routes/generic.js:64 | reading the id as a decimal number gives back the clock reading |
| Ids.DecimalInjective | routes/generic.js:64 | different clock readings give different ids |
| Records.NewItem | routes/generic.js:65 | the new item has the body's keys plus `id`; every body field is kept as given, so a body `id` wins, and otherwise `id` is the timestamp string |
| Records.NewItemOwner | routes/generic.js:65 | adding `id` never changes `rm`, so the new item belongs to the owner named in the body |
| Records.NewItemStored | routes/generic.js:60-66 | an accepted body yields an item with a truthy `rm` and an `id` |
| Records.Owned | routes/generic.js:118 | the selection is no longer than the list, and each element is from the list and has that `rm` |
| Records.OwnedExactly | routes/generic.js:118 | the selection is a subsequence of the list that keeps each owned item as often as the list holds it and no other item |
| Records.OwnedAppend | routes/items.js:56-93 | after an append, listing by owner gives the old selection plus the new item exactly when it has that owner |
| Records.NonStringOwnerUnreachable | routes/generic.js:118 | an item whose `rm` is not a string (a number, say) is never listed by owner and never deleted |
| Records.Remaining | routes/generic.js:156-158 | no remaining item matches the pair, each comes from the list, and the list does not grow |
| Records.RemainingExactly | routes/generic.js:156-158 | the remaining list is a subsequence of the old one that keeps every non-matching item as often as before, including items with the same `id` and another `rm` |
| Records.RemainingUnique | routes/generic.js:156-158 | any subsequence with no match that keeps every non-matching item is the delete filter's result |
| Records.RemainingUnchangedIff | routes/generic.js:155-162 | the length is unchanged after the filter iff no item matched, and then the list itself is unchanged |
| Records.RemainingTwice | routes/items.js:162-165 | filtering again changes nothing, so a repeated delete sees an unchanged length |
| Records.RemainingStored | routes/generic.js:156-158 | the filter keeps the store invariant: every remaining item has a truthy `rm` and an `id` |
| Selection.Keep | routes/generic.js:118 | `filter` returns elements of its input that all pass the test, and no more of them than the input has |
| Selection.KeepIsSubsequence | routes/generic.js:118 | `filter` keeps the relative order of what it keeps |
| Selection.KeepCounts | routes/generic.js:118 | `filter` keeps each passing element as often as the input holds it and drops each failing one |
| Selection.SubsequenceCounts | routes/generic.js:156-158 | a subsequence holds no element more often than its source |
| Selection.KeepUnique | routes/generic.js:156-158 | `filter`'s result is the only subsequence that passes the test and keeps every passing element |
| Selection.KeepAll | routes/generic.js:160 | `filter` keeps the length iff every element passes, and then it returns the input |
| Selection.KeepAppend | routes/items.js:56-93 | filtering a concatenation filters each part |
| Responses.Status | routes/generic.js:60-164 | 201 exactly for a creation, 400 exactly for a refused insert, 404 exactly for a delete that matched nothing, 200 exactly for a delete that removed something |
| Responses.Body | routes/generic.js:60-164 | the reply is a JSON object; a creation carries `message` and exactly the created `item`; a delete carries only `message`; a 400 or 404 carries only `error` |
| PrototypeKeys.Lookup | routes/generic.js:62 | `db[collection]` is the stored list itself for a table key, an inherited member for a name of `Object.prototype`, and `undefined` otherwise |
| PrototypeKeys.InsertAsWritten | routes/generic.js:56-69 | as written: 400 iff `rm` is falsy; a throw iff `rm` is truthy and the name is an inherited member; both leave the table unchanged; otherwise 201 with `{id, ...body}` appended to the (possibly new) collection |
| PrototypeKeys.ListByOwnerAsWritten | routes/generic.js:116-120 | as written: throws iff the name is an inherited member; otherwise only items with that `rm`, and `[]` for an unknown collection |
| PrototypeKeys.DeleteAsWritten | routes/generic.js:151-165 | as written: throws iff the name is an inherited member, leaving the table unchanged; otherwise 404 or 200, the collection exists afterwards and holds no matching item; no other collection changes |
| PrototypeKeys.ConstructorCollectionBroken | routes/generic.js:56-165 | as written, on a fresh store every handler on the collection `constructor` throws, and a valid insert stores nothing |
| PrototypeKeys.InheritedNeverStored | routes/generic.js:62 | as written, no insert or delete ever adds an inherited name to the table |
| PrototypeKeys.InheritedAlwaysThrows | routes/generic.js:62-66 | as written, on an inherited name a valid insert, a list by owner and a delete all throw, and the table is unchanged |
| PrototypeKeys.AsWrittenAgreesElsewhere | routes/generic.js:56-165 | away from inherited names, the handlers as written do what `GenericStore.Store` does |

## Findings

| source | as written | input that shows it | evidently intended | confidence | as-written member | corrected member |
|---|---|---|---|---|---|---|
| routes/generic.js:5-66 | `db` is a plain object, so `db[collection]` finds inherited `Object.prototype` members. They are truthy, so the lazy `db[collection] = []` is skipped, and then `push`/`filter` throw (a 500 answer) | `POST /constructor` with body `{"rm":"2023001"}` (also `__proto__`, `toString`, `valueOf`, ...) | every collection name is an ordinary, initially empty collection, and an insert with a truthy `rm` is stored and answered with 201 | high; not executed | PrototypeKeys.ConstructorCollectionBroken | GenericStore.Store.Insert |

## Left out

- Express routing, the `req`/`res` objects, JSON body parsing, CORS, `app.listen` and the port setting (`server.js`) are framework and I/O plumbing. The order of `app.use` calls, and what it lets the generic router shadow, is not modelled.
- The API documentation generator (`swagger.js` and the `@swagger` comment blocks) is a foreign library.
- `Date.now()` is a clock read. The handlers take the reading as `now: nat`. Clashes between same-millisecond ids are possible in the source and are not excluded here.
- Ids.DecimalString: `Number.prototype.toString` switches to exponent notation at 10^21 ms. Clock readings never get that large, so only plain decimal digits are modelled.
- Request bodies are modelled as JSON objects. A JSON array body has no `rm`, so it would be refused with 400 anyway. The framework's handling of a missing body is not modelled.
- JSON numbers are exact decimals (`real`). The source stores the nearest double, so a stored or returned number may differ from the decimal in the body. Rounding is modelled only where it changes behaviour: whether `rm` parses to 0 (`Json.Truthy`).
- Property order in the serialised item (`id` first) is not modelled: items are maps.
- PrototypeKeys: GET `/:collection` on an inherited name answers with the inherited value (a function, which serialises to nothing, or `{}` for `__proto__`). This is not modelled. The intended `GenericStore.Store.ListAll` answers `[]`.
- Concurrent requests are not modelled. Each handler is one atomic method.
- The PUT and list-all handlers of `routes/items.js` are commented out, so they are not behaviour.
- The theme lookup (`/tema/:rm`) is not part of this model: no source for it is available.
