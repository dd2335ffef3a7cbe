/**
 * What both route files do to one list of items: build a new item from a
 * request body, select the items of one owner, and drop the items that
 * match an owner and an identifier.
 */
module Records {
  import opened Json
  import opened Selection

  /**
   * `{ id, ...body }`: the object literal first sets `id`, then copies every
   * own field of the body, so a body field named `id` replaces the timestamp.
   */
  function NewItem(id: string, body: Item): (r: Item)
    ensures r.Keys == body.Keys + {"id"}
    ensures forall k | k in body :: r[k] == body[k]
    ensures "id" !in body ==> r["id"] == JStr(id)
  {
    map["id" := JStr(id)] + body
  }

  /** `item.rm === rm` for a route parameter `rm`: only the same string matches. */
  predicate OwnedBy(item: Item, rm: string)
  {
    Get(item, "rm") == Some(JStr(rm))
  }

  /** `item.rm === rm && item.id === id`. */
  predicate Matches(item: Item, rm: string, id: string)
  {
    OwnedBy(item, rm) && Get(item, "id") == Some(JStr(id))
  }

  /** No item of `s` matches the pair. */
  predicate NoMatch(s: seq<Item>, rm: string, id: string)
  {
    forall i | 0 <= i < |s| :: !Matches(s[i], rm, id)
  }

  function OwnerIs(rm: string): Item -> bool
  {
    item => OwnedBy(item, rm)
  }

  function Survives(rm: string, id: string): Item -> bool
  {
    item => !Matches(item, rm, id)
  }

  /** `s.filter((item) => item.rm === rm)`. */
  function Owned(s: seq<Item>, rm: string): (r: seq<Item>)
    ensures |r| <= |s|
    ensures forall i | 0 <= i < |r| :: OwnedBy(r[i], rm) && r[i] in s
  {
    Keep(s, OwnerIs(rm))
  }

  /** `s.filter((item) => !(item.rm === rm && item.id === id))`. */
  function Remaining(s: seq<Item>, rm: string, id: string): (r: seq<Item>)
    ensures |r| <= |s|
    ensures NoMatch(r, rm, id)
    ensures forall i | 0 <= i < |r| :: r[i] in s
  {
    Keep(s, Survives(rm, id))
  }

  /**
   * Selecting by owner keeps, in their original order, exactly the items
   * with that owner, each as often as the list holds it.
   */
  lemma OwnedExactly(s: seq<Item>, rm: string)
    ensures IsSubsequence(Owned(s, rm), s)
    ensures forall x :: multiset(Owned(s, rm))[x] == if OwnedBy(x, rm) then multiset(s)[x] else 0
  {
    KeepIsSubsequence(s, OwnerIs(rm));
    KeepCounts(s, OwnerIs(rm));
  }

  /**
   * Deleting keeps, in their original order, exactly the items that do not
   * match both `rm` and `id`; an item with the same `id` and another `rm`
   * (or the reverse) stays as often as it was there.
   */
  lemma RemainingExactly(s: seq<Item>, rm: string, id: string)
    ensures IsSubsequence(Remaining(s, rm, id), s)
    ensures forall x :: multiset(Remaining(s, rm, id))[x] == if Matches(x, rm, id) then 0 else multiset(s)[x]
  {
    KeepIsSubsequence(s, Survives(rm, id));
    KeepCounts(s, Survives(rm, id));
  }

  /** An independent description of the delete filter determines its result. */
  lemma RemainingUnique(s: seq<Item>, rm: string, id: string, t: seq<Item>)
    requires IsSubsequence(t, s) && NoMatch(t, rm, id)
    requires forall x | !Matches(x, rm, id) :: multiset(t)[x] == multiset(s)[x]
    ensures t == Remaining(s, rm, id)
  {
    KeepUnique(s, Survives(rm, id), t);
  }

  /**
   * The length comparison after the delete filter is a match test: the
   * length is unchanged exactly when nothing matched, and then the list
   * is unchanged too.
   */
  lemma RemainingUnchangedIff(s: seq<Item>, rm: string, id: string)
    ensures |Remaining(s, rm, id)| == |s| <==> NoMatch(s, rm, id)
    ensures NoMatch(s, rm, id) ==> Remaining(s, rm, id) == s
  {
    KeepAll(s, Survives(rm, id));
  }

  /** A second identical delete finds nothing: its length comparison reports not found. */
  lemma RemainingTwice(s: seq<Item>, rm: string, id: string)
    ensures Remaining(Remaining(s, rm, id), rm, id) == Remaining(s, rm, id)
  {
    RemainingUnchangedIff(Remaining(s, rm, id), rm, id);
  }

  /** Appending an item extends the owner's selection by that item when it has that owner. */
  lemma OwnedAppend(s: seq<Item>, x: Item, rm: string)
    ensures Owned(s + [x], rm) == Owned(s, rm) + (if OwnedBy(x, rm) then [x] else [])
  {
    KeepAppend(s, [x], OwnerIs(rm));
    assert Keep([x], OwnerIs(rm)) == if OwnedBy(x, rm) then [x] else [];
  }

  /**
   * A new item belongs to the owner its body names: the `id` the handler
   * adds never touches `rm`.
   */
  lemma NewItemOwner(id: string, body: Item, rm: string)
    ensures OwnedBy(NewItem(id, body), rm) <==> Get(body, "rm") == Some(JStr(rm))
    ensures Get(NewItem(id, body), "rm") == Get(body, "rm")
  {
  }

  /**
   * An item whose `rm` is not a string (a number, say) is never listed by
   * owner and never deleted, since route parameters are strings and the
   * comparison is strict.
   */
  lemma NonStringOwnerUnreachable(s: seq<Item>, x: Item, rm: string, id: string)
    requires "rm" in x && !x["rm"].JStr?
    ensures x !in Owned(s, rm)
    ensures multiset(Remaining(s, rm, id))[x] == multiset(s)[x]
  {
    RemainingExactly(s, rm, id);
  }

  /** What every stored item has: a truthy `rm` (checked on insert) and an `id`. */
  predicate Stored(item: Item)
  {
    Truthy(Get(item, "rm")) && "id" in item
  }

  predicate AllStored(s: seq<Item>)
  {
    forall i | 0 <= i < |s| :: Stored(s[i])
  }

  /** Inserting a body with a truthy `rm` yields a storable item. */
  lemma NewItemStored(id: string, body: Item)
    requires Truthy(Get(body, "rm"))
    ensures Stored(NewItem(id, body))
  {
  }

  /** Deleting keeps every remaining item storable. */
  lemma RemainingStored(s: seq<Item>, rm: string, id: string)
    requires AllStored(s)
    ensures AllStored(Remaining(s, rm, id))
  {
  }
}
