/**
 * The repository over a JPA `EntityManager`. `findAll` grows a JPQL text
 * with `+=` exactly as the SQL repository does and then sets on the query
 * only the parameters whose clauses it appended; the other operations act
 * on the managed entities directly.
 */
module JpaRepository {
  import opened Wrappers
  import opened Text
  import opened Domain
  import opened ItemFilter
  import opened DynamicQuery
  import opened Persistence

  /**
   * The parameters `findAll` sets on the created query: `itemName` only
   * when the name has text, `maxPrice` only when a bound is given.
   */
  method SetParameters(cond: ItemSearchCond) returns (params: map<string, SqlValue>)
    ensures params.Keys ==
              (if HasText(cond.itemName) then {"itemName"} else {}) + (if cond.maxPrice.Some? then {"maxPrice"} else {})
    ensures BindsCond(params, cond)
    ensures forall n | n in params :: params[n] != Null
  {
    var itemName, maxPrice := cond.itemName, cond.maxPrice;
    params := map[];
    if HasText(itemName) {
      params := params["itemName" := Text(itemName.value)];
    }
    if maxPrice.Some? {
      params := params["maxPrice" := Number(maxPrice.value)];
    }
  }

  /**
   * The JPQL `findAll` creates and the parameters it sets: the JPQL
   * spelling of the condition's clause plan (whose shape `QueryShape`
   * describes), with exactly its placeholders set, each to a non-null value.
   */
  method FindAllQuery(cond: ItemSearchCond) returns (jpql: string, params: map<string, SqlValue>)
    ensures jpql == Render(SyntaxOf(Jpql), PlanOf(cond))
    ensures params.Keys == Placeholders(jpql)
    ensures BindsCond(params, cond)
    ensures forall n | n in params :: params[n] != Null
  {
    jpql := BuildQuery(SyntaxOf(Jpql), cond);
    params := SetParameters(cond);
    DialectReadable(Jpql);
    QueryPlaceholders(SyntaxOf(Jpql), cond);
  }

  class JpaItemRepository {
    const em: EntityManager

    constructor (em: EntityManager)
      ensures this.em == em
    {
      this.em := em;
    }

    /** `em.persist(item)`: the item is managed under a fresh key that is written into its id; the same item is returned. */
    method Save(item: Item) returns (saved: Item)
      requires em.Valid() && item.id.None?
      modifies em, item
      ensures em.Valid()
      ensures saved == item && item.id == Some(old(em.nextId)) && old(em.nextId) !in old(em.managed)
      ensures item.itemName == old(item.itemName) && item.price == old(item.price) && item.quantity == old(item.quantity)
      ensures em.managed == old(em.managed)[old(em.nextId) := item]
      ensures em.Contents() == old(em.Contents())[old(em.nextId) := item.Value()]
      ensures em.nextId == old(em.nextId) + 1
    {
      var id := em.Persist(item);
      saved := item;
    }

    /**
     * `em.find` then the three setters on the managed entity: its name,
     * price and quantity become the payload's, nulls included, and its id
     * stays. With no entity under that key `find` returns null and the first
     * setter call throws, before anything has changed.
     */
    method Update(itemId: int, updateParam: ItemUpdateDto) returns (outcome: Outcome<Exception>)
      requires em.Valid()
      modifies em.managed.Values
      ensures em.Valid()
      ensures outcome == if itemId in em.managed then Pass else Fail(NullPointerException)
      ensures em.Contents() ==
                if itemId in em.managed then old(em.Contents())[itemId := Overwritten(itemId, updateParam)]
                else old(em.Contents())
    {
      var found := em.Find(itemId);
      if found.None? {
        outcome := Fail(NullPointerException);
        return;
      }
      var item := found.value;
      em.OthersDistinct(itemId);
      item.SetItemName(updateParam.itemName);
      item.SetPrice(updateParam.price);
      item.SetQuantity(updateParam.quantity);
      outcome := Pass;
      assert item.Value() == Overwritten(itemId, updateParam);
      assert forall k | k in em.managed && k != itemId :: em.managed[k].Value() == old(em.managed[k].Value());
    }

    /** `Optional.ofNullable(em.find(...))`: the managed entity under that key, or empty. */
    method FindById(id: int) returns (found: Option<Item>)
      ensures found.None? <==> id !in em.managed
      ensures found.Some? ==> found.value == em.managed[id] && found.value.Value() == em.Contents()[id]
    {
      found := em.Find(id);
    }

    /**
     * The entities the JPQL query returns, as a set since it has no ORDER
     * BY: those whose current values satisfy the WHERE clause rendered from
     * the condition with the set parameters substituted; for a name with no
     * LIKE wildcard, exactly those matching the condition.
     */
    method FindAll(cond: ItemSearchCond) returns (items: set<Item>)
      requires em.Valid()
      ensures items == em.Query(Conjuncts(cond)) && items <= em.managed.Values
      ensures NoWildcards(cond.itemName, DatabaseEscape) ==>
                forall k | k in em.managed :: em.managed[k] in items <==> Matches(em.Contents()[k], cond)
    {
      var jpql, params := FindAllQuery(cond);
      items := em.Query(DenotePlan(PlanOf(cond), params));
      PlanDenotesConjuncts(cond, params);
      if NoWildcards(cond.itemName, DatabaseEscape) {
        em.QueryMatches(cond);
      }
    }
  }
}
