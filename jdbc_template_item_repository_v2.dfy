/**
 * The repository over `NamedParameterJdbcTemplate`: table `item` is a map
 * from primary key to row value plus the auto-increment counter, and
 * `findAll` builds its SQL text step by step before the database runs it.
 */
module JdbcTemplateRepository {
  import opened Wrappers
  import opened Text
  import opened Domain
  import opened ItemFilter
  import opened DynamicQuery

  /** `BeanPropertySqlParameterSource(cond)`: every property of the condition is bound, null or not. */
  function BeanProperties(cond: ItemSearchCond): (params: map<string, SqlValue>)
    ensures params.Keys == {"itemName", "maxPrice"}
  {
    map["itemName" := TextValue(cond.itemName), "maxPrice" := NumberValue(cond.maxPrice)]
  }

  /**
   * The text `findAll` sends and the parameters it binds: the SQL spelling
   * of the condition's clause plan (whose shape `QueryShape` describes),
   * with every placeholder in it bound to a non-null value.
   */
  method FindAllQuery(cond: ItemSearchCond) returns (sql: string, params: map<string, SqlValue>)
    ensures sql == Render(SyntaxOf(Sql), PlanOf(cond))
    ensures params == BeanProperties(cond) && BindsCond(params, cond)
    ensures forall n | n in Placeholders(sql) :: n in params && params[n] != Null
  {
    params := BeanProperties(cond);
    sql := BuildQuery(SyntaxOf(Sql), cond);
    DialectReadable(Sql);
    QueryPlaceholders(SyntaxOf(Sql), cond);
    BindsPlaceholders(Placeholders(sql), cond, params);
  }

  class JdbcTemplateItemRepositoryV2 {
    /** Table `item`: each row under its primary key. */
    var rows: map<int, ItemValue>
    /** The next value of the auto-increment `id` column. */
    var nextId: int

    /** Every row's `id` column is its key, and every key is below the next one to be generated. */
    ghost predicate Valid()
      reads this
    {
      && 1 <= nextId
      && forall k | k in rows :: k < nextId && rows[k].id == Some(k)
    }

    constructor ()
      ensures Valid()
      ensures rows == map[] && nextId == 1
    {
      rows := map[];
      nextId := 1;
    }

    /**
     * Rows under distinct keys are distinct values, since each carries its
     * key in its `id` column; so a set of selected rows loses no row.
     */
    lemma DistinctRows(j: int, k: int)
      requires Valid() && j in rows && k in rows && j != k
      ensures rows[j] != rows[k]
    {
      assert rows[j].id == Some(j) && rows[k].id == Some(k);
    }

    /**
     * `insert into item(item_name, price, quantity)`: the database generates
     * a fresh key, the row holds the item's three fields, and the key is
     * written back into the item, which is returned.
     */
    method Save(item: Item) returns (saved: Item)
      requires Valid()
      modifies this, item
      ensures Valid()
      ensures saved == item
      ensures item.id == Some(old(nextId)) && old(nextId) !in old(rows)
      ensures item.itemName == old(item.itemName) && item.price == old(item.price) && item.quantity == old(item.quantity)
      ensures rows == old(rows)[old(nextId) := item.Value()]
      ensures nextId == old(nextId) + 1
    {
      var key := nextId;
      rows := rows[key := ItemValue(Some(key), item.itemName, item.price, item.quantity)];
      nextId := nextId + 1;
      item.SetId(Some(key));
      saved := item;
    }

    /**
     * `update item set item_name = :itemName, price = :price, quantity =
     * :quantity where id = :id`: the row with that key gets all three fields
     * from the payload, nulls included; with no such row nothing changes.
     */
    method Update(itemId: int, updateParam: ItemUpdateDto)
      requires Valid()
      modifies this
      ensures Valid()
      ensures rows == if itemId in old(rows) then old(rows)[itemId := Overwritten(itemId, updateParam)] else old(rows)
      ensures nextId == old(nextId)
    {
      if itemId in rows {
        rows := rows[itemId := ItemValue(Some(itemId), updateParam.itemName, updateParam.price, updateParam.quantity)];
      }
    }

    /**
     * `select ... where id = :id` through the bean row mapper: a new item
     * built with the no-argument constructor and one setter per column, or
     * empty when no row has that key.
     */
    method FindById(id: int) returns (found: Option<Item>)
      requires Valid()
      ensures found.None? <==> id !in rows
      ensures found.Some? ==> fresh(found.value) && found.value.Value() == rows[id]
    {
      if id in rows {
        var row := rows[id];
        var item := new Item.Blank();
        item.SetId(row.id);
        item.SetItemName(row.itemName);
        item.SetPrice(row.price);
        item.SetQuantity(row.quantity);
        found := Some(item);
      } else {
        found := None;
      }
    }

    /**
     * The rows the built query selects, compared as a set since the query has
     * no ORDER BY. The database evaluates the WHERE clause the text was
     * rendered from, with the bound parameters substituted; for a name with
     * no LIKE wildcard in it that is exactly the search condition.
     */
    method FindAll(cond: ItemSearchCond) returns (items: set<ItemValue>)
      requires Valid()
      ensures items == Select(rows, Conjuncts(cond))
      ensures items <= rows.Values
      ensures NoWildcards(cond.itemName, DatabaseEscape) ==> items == Filter(rows, cond)
    {
      var sql, params := FindAllQuery(cond);
      items := Select(rows, DenotePlan(PlanOf(cond), params));
      PlanDenotesConjuncts(cond, params);
      if NoWildcards(cond.itemName, DatabaseEscape) {
        SelectIsFilter(rows, cond);
      }
    }
  }
}
