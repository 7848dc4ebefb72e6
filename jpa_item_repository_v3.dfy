/**
 * The repository that states `findAll`'s filter as a QueryDSL
 * `BooleanBuilder`: one predicate is and-ed in per present filter and the
 * query factory selects the managed items satisfying the conjunction. The
 * other operations are those of the plain JPA repository.
 */
module JpaRepositoryV3 {
  import opened Wrappers
  import opened Text
  import opened Domain
  import opened ItemFilter
  import opened Persistence

  /**
   * The builder `findAll` fills in place: the LIKE term on the name when it
   * has text, then the inclusive bound when one is given. For a name with no
   * LIKE wildcard the conjunction holds of an item exactly when the item
   * matches the condition.
   */
  method BuildWhere(cond: ItemSearchCond) returns (builder: seq<Predicate>)
    ensures builder == Conjuncts(cond)
    ensures NoWildcards(cond.itemName, QueryDslEscape) ==> forall v :: HoldsAll(builder, v) <==> Matches(v, cond)
  {
    var itemName, maxPrice := cond.itemName, cond.maxPrice;
    builder := [];
    if HasText(itemName) {
      builder := builder + [Like(NamePattern(itemName.value))];
    }
    if maxPrice.Some? {
      builder := builder + [Loe(maxPrice.value)];
    }
    assert builder == Conjuncts(cond);
    if NoWildcards(cond.itemName, QueryDslEscape) {
      forall v ensures HoldsAll(builder, v) <==> Matches(v, cond) {
        ConjunctsMeaning(cond, v);
      }
    }
  }

  class JpaItemRepositoryV3 {
    const em: EntityManager

    constructor (em: EntityManager)
      ensures this.em == em
    {
      this.em := em;
    }

    /** `em.persist(item)`: the item is managed under a fresh key that is written into its id; the same item is returned. */
    method Save(item: Item) returns (saved: Item)
      requires em.Valid() && item.id.None?
      modifies em, item
      ensures em.Valid()
      ensures saved == item && item.id == Some(old(em.nextId)) && old(em.nextId) !in old(em.managed)
      ensures item.itemName == old(item.itemName) && item.price == old(item.price) && item.quantity == old(item.quantity)
      ensures em.managed == old(em.managed)[old(em.nextId) := item]
      ensures em.Contents() == old(em.Contents())[old(em.nextId) := item.Value()]
      ensures em.nextId == old(em.nextId) + 1
    {
      var id := em.Persist(item);
      saved := item;
    }

    /**
     * `em.find` then the three setters: the managed entity takes the
     * payload's name, price and quantity and keeps its id; with no entity
     * under that key the first setter call dereferences null and nothing
     * changes.
     */
    method Update(itemId: int, updateParam: ItemUpdateDto) returns (outcome: Outcome<Exception>)
      requires em.Valid()
      modifies em.managed.Values
      ensures em.Valid()
      ensures outcome == if itemId in em.managed then Pass else Fail(NullPointerException)
      ensures em.Contents() ==
                if itemId in em.managed then old(em.Contents())[itemId := Overwritten(itemId, updateParam)]
                else old(em.Contents())
    {
      var found := em.Find(itemId);
      if found.None? {
        outcome := Fail(NullPointerException);
        return;
      }
      var item := found.value;
      em.OthersDistinct(itemId);
      item.SetItemName(updateParam.itemName);
      item.SetPrice(updateParam.price);
      item.SetQuantity(updateParam.quantity);
      outcome := Pass;
      assert item.Value() == Overwritten(itemId, updateParam);
      assert forall k | k in em.managed && k != itemId :: em.managed[k].Value() == old(em.managed[k].Value());
    }

    /** `Optional.ofNullable(em.find(...))`: the managed entity under that key, or empty. */
    method FindById(id: int) returns (found: Option<Item>)
      ensures found.None? <==> id !in em.managed
      ensures found.Some? ==> found.value == em.managed[id] && found.value.Value() == em.Contents()[id]
    {
      found := em.Find(id);
    }

    /**
     * `select(item).from(item).where(builder).fetch()`, as a set: the
     * managed items whose current values satisfy every predicate of the
     * builder. With neither filter that is every managed item; for a name
     * with no LIKE wildcard it is exactly the items matching the condition.
     */
    method FindAll(cond: ItemSearchCond) returns (items: set<Item>)
      requires em.Valid()
      ensures items == em.Query(Conjuncts(cond)) && items <= em.managed.Values
      ensures !HasText(cond.itemName) && cond.maxPrice.None? ==> items == em.managed.Values
      ensures NoWildcards(cond.itemName, QueryDslEscape) ==>
                forall k | k in em.managed :: em.managed[k] in items <==> Matches(em.Contents()[k], cond)
    {
      var builder := BuildWhere(cond);
      items := em.Query(builder);
      if NoWildcards(cond.itemName, QueryDslEscape) {
        em.QueryMatches(cond);
      }
      if !HasText(cond.itemName) && cond.maxPrice.None? {
        em.QueryAll();
      }
    }
  }
}
