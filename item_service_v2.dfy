/**
 * The service in front of the two repositories it combines: basic CRUD
 * through the Spring Data repository and the dynamic search through the
 * QueryDSL repository. Both work on the same persistence context, modelled
 * here as one `EntityManager`.
 */
module ItemService {
  import opened Wrappers
  import opened Domain
  import opened ItemFilter
  import opened Persistence

  class ItemServiceV2 {
    /** The store behind both the Spring Data and the QueryDSL repository. */
    const em: EntityManager

    constructor (em: EntityManager)
      ensures this.em == em
    {
      this.em := em;
    }

    /**
     * Spring Data `save` of a new item (one with a null id): it is persisted
     * under a fresh key written into its id, and the same item is returned.
     */
    method Save(item: Item) returns (saved: Item)
      requires em.Valid() && item.id.None?
      modifies em, item
      ensures em.Valid()
      ensures saved == item && item.id == Some(old(em.nextId)) && old(em.nextId) !in old(em.managed)
      ensures item.itemName == old(item.itemName) && item.price == old(item.price) && item.quantity == old(item.quantity)
      ensures em.managed == old(em.managed)[old(em.nextId) := item]
      ensures em.Contents() == old(em.Contents())[old(em.nextId) := item.Value()]
      ensures em.nextId == old(em.nextId) + 1
    {
      var id := em.Persist(item);
      saved := item;
    }

    /**
     * `findById(itemId).orElseThrow()` and then the three setters: an item
     * that exists takes the payload's name, price and quantity, nulls
     * included, and keeps its id; every other item is left as it was. An
     * absent id throws before anything has changed.
     */
    method Update(itemId: int, updateParam: ItemUpdateDto) returns (outcome: Outcome<Exception>)
      requires em.Valid()
      modifies em.managed.Values
      ensures em.Valid()
      ensures outcome == if itemId in em.managed then Pass else Fail(NoSuchElementException)
      ensures em.Contents() ==
                if itemId in em.managed then old(em.Contents())[itemId := Overwritten(itemId, updateParam)]
                else old(em.Contents())
    {
      var found := em.Find(itemId);
      if found.None? {
        outcome := Fail(NoSuchElementException);
        return;
      }
      var item := found.value;
      em.OthersDistinct(itemId);
      item.SetItemName(updateParam.itemName);
      item.SetPrice(updateParam.price);
      item.SetQuantity(updateParam.quantity);
      outcome := Pass;
      assert item.Value() == Overwritten(itemId, updateParam);
      assert forall k | k in em.managed && k != itemId :: em.managed[k].Value() == old(em.managed[k].Value());
    }

    /** Spring Data `findById`: the item under that key, or empty. */
    method FindById(id: int) returns (found: Option<Item>)
      ensures found.None? <==> id !in em.managed
      ensures found.Some? ==> found.value == em.managed[id] && found.value.Value() == em.Contents()[id]
    {
      found := em.Find(id);
    }

    /**
     * The QueryDSL search: the stored items satisfying the condition's
     * conjunction; for a name with no LIKE wildcard, exactly the items
     * matching the condition.
     */
    method FindItems(cond: ItemSearchCond) returns (items: set<Item>)
      requires em.Valid()
      ensures items == em.Query(Conjuncts(cond)) && items <= em.managed.Values
      ensures NoWildcards(cond.itemName, QueryDslEscape) ==>
                forall k | k in em.managed :: em.managed[k] in items <==> Matches(em.Contents()[k], cond)
    {
      items := em.Query(Conjuncts(cond));
      if NoWildcards(cond.itemName, QueryDslEscape) {
        em.QueryMatches(cond);
      }
    }
  }

  /**
   * Saving a new item and then looking up the returned id, within one
   * persistence context, finds that very item, holding the fields it was
   * saved with.
   */
  method SaveThenFindById(service: ItemServiceV2, item: Item) returns (found: Option<Item>)
    requires service.em.Valid() && item.id.None?
    modifies service.em, item
    ensures found == Some(item)
    ensures item.id.Some? && item.Value() == old(item.Value()).(id := item.id)
  {
    var saved := service.Save(item);
    found := service.FindById(saved.id.value);
  }
}
