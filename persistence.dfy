/**
 * The persistence context the JPA repositories and the service work
 * through: the managed `Item` objects, keyed by id, and the IDENTITY
 * column's next value. Looking an item up hands out the managed object
 * itself, so setters called on it change the stored item (dirty checking
 * writes it back at commit).
 */
module Persistence {
  import opened Wrappers
  import opened Domain
  import opened ItemFilter

  class EntityManager {
    /** The managed entities, by primary key. */
    var managed: map<int, Item>
    /** The value the IDENTITY column hands out next. */
    var nextId: int

    /** Every managed item carries its own key as its id, and every key is below the next one to be generated. */
    ghost predicate Valid()
      reads this, managed.Values
    {
      && 1 <= nextId
      && forall k | k in managed :: k < nextId && managed[k].id == Some(k)
    }

    /** The stored rows: what each managed item holds right now. */
    function Contents(): map<int, ItemValue>
      reads this, managed.Values
    {
      map k | k in managed :: managed[k].Value()
    }

    /** The managed items whose current values satisfy every predicate: what a query with that WHERE clause returns. */
    function Query(ps: seq<Predicate>): (r: set<Item>)
      reads this, managed.Values
      ensures r <= managed.Values
    {
      set k | k in managed && HoldsAll(ps, managed[k].Value()) :: managed[k]
    }

    constructor ()
      ensures Valid() && fresh(this)
      ensures managed == map[] && nextId == 1
    {
      managed := map[];
      nextId := 1;
    }

    /** Distinct keys hold distinct objects, because each object carries its key. */
    lemma Distinct(j: int, k: int)
      requires Valid() && j in managed && k in managed && j != k
      ensures managed[j] != managed[k]
    {
    }

    /** The item under one key is not the item under any other key. */
    lemma OthersDistinct(id: int)
      requires Valid() && id in managed
      ensures forall k | k in managed && k != id :: managed[k] != managed[id]
    {
      forall k | k in managed && k != id ensures managed[k] != managed[id] {
        Distinct(k, id);
      }
    }

    /** A new item (one with no id yet) is not managed. */
    lemma NewIsUnmanaged(item: Item)
      requires Valid() && item.id.None?
      ensures item !in managed.Values
    {
      forall k | k in managed ensures managed[k] != item {
        assert managed[k].id == Some(k);
      }
    }

    /** A managed item is returned by a query exactly when its current values satisfy every predicate. */
    lemma QueryMembers(ps: seq<Predicate>, k: int)
      requires Valid() && k in managed
      ensures managed[k] in Query(ps) <==> HoldsAll(ps, Contents()[k])
    {
      if managed[k] in Query(ps) {
        var j :| j in managed && HoldsAll(ps, managed[j].Value()) && managed[j] == managed[k];
        if j != k {
          Distinct(j, k);
        }
      }
    }

    /** A query with no predicate returns every managed item. */
    lemma QueryAll()
      ensures Query([]) == managed.Values
    {
      forall k | k in managed ensures managed[k] in Query([]) {
        assert HoldsAll([], managed[k].Value());
      }
    }

    /**
     * A query with the conjunction of a condition returns the managed items
     * whose current values match the condition, provided the name holds no
     * LIKE wildcard.
     */
    lemma QueryMatches(cond: ItemSearchCond)
      requires Valid() && NoPatternChars(cond.itemName)
      ensures forall k | k in managed :: managed[k] in Query(Conjuncts(cond)) <==> Matches(Contents()[k], cond)
    {
      forall k | k in managed
        ensures managed[k] in Query(Conjuncts(cond)) <==> Matches(Contents()[k], cond)
      {
        QueryMembers(Conjuncts(cond), k);
        ConjunctsMeaning(cond, Contents()[k]);
      }
    }

    /**
     * `em.persist(item)`: the IDENTITY strategy assigns the next key to the
     * item's id and the item becomes managed under it.
     */
    method Persist(item: Item) returns (id: int)
      requires Valid() && item.id.None?
      modifies this, item
      ensures Valid()
      ensures id == old(nextId) && nextId == id + 1
      ensures managed == old(managed)[id := item]
      ensures item.Value() == old(item.Value()).(id := Some(id))
      ensures Contents() == old(Contents())[id := item.Value()]
    {
      NewIsUnmanaged(item);
      id := nextId;
      item.SetId(Some(id));
      managed := managed[id := item];
      nextId := nextId + 1;
      forall k | k in old(managed) ensures managed[k].Value() == old(managed[k].Value()) {
        assert managed[k] == old(managed[k]) != item;
      }
    }

    /** `em.find(Item.class, id)`: the managed item under that key, or nothing. */
    method Find(id: int) returns (r: Option<Item>)
      ensures r.None? <==> id !in managed
      ensures r.Some? ==> r.value == managed[id]
    {
      if id in managed {
        r := Some(managed[id]);
      } else {
        r := None;
      }
    }
  }
}
