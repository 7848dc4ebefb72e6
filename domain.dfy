/**
 * The item entity and the request values that travel with it: the search
 * condition and the update payload. Every Java field is a nullable boxed
 * value, so each is an `Option` here.
 */
module Domain {
  import opened Wrappers

  /** A snapshot of an item's four fields; also what one row of table `item` holds. */
  datatype ItemValue = ItemValue(id: Option<int>, itemName: Option<string>, price: Option<int>, quantity: Option<int>)

  /** The search condition: an optional name fragment and an optional inclusive price bound. */
  datatype ItemSearchCond = ItemSearchCond(itemName: Option<string>, maxPrice: Option<int>)

  /** The update payload: the three replaceable fields, each possibly null. */
  datatype ItemUpdateDto = ItemUpdateDto(itemName: Option<string>, price: Option<int>, quantity: Option<int>)

  /** The exceptions an update can end with. */
  datatype Exception = NullPointerException | NoSuchElementException

  /** The value an item takes on once `dto` has overwritten it: the id is kept, the other three fields come from `dto`. */
  function Overwritten(id: int, dto: ItemUpdateDto): ItemValue
  {
    ItemValue(Some(id), dto.itemName, dto.price, dto.quantity)
  }

  /** The mutable entity: a record with a no-argument constructor, a three-argument constructor and a setter per field. */
  class Item {
    var id: Option<int>
    var itemName: Option<string>
    var price: Option<int>
    var quantity: Option<int>

    /** The no-argument constructor required by the persistence layer: every field is unset. */
    constructor Blank()
      ensures id == None && itemName == None && price == None && quantity == None
    {
      id, itemName, price, quantity := None, None, None, None;
    }

    /** A new item has no id yet; the store assigns one when it is saved. */
    constructor (itemName: Option<string>, price: Option<int>, quantity: Option<int>)
      ensures id == None
      ensures this.itemName == itemName && this.price == price && this.quantity == quantity
    {
      this.id := None;
      this.itemName := itemName;
      this.price := price;
      this.quantity := quantity;
    }

    function Value(): ItemValue
      reads this
    {
      ItemValue(id, itemName, price, quantity)
    }

    method SetId(id: Option<int>)
      modifies this
      ensures this.id == id
      ensures itemName == old(itemName) && price == old(price) && quantity == old(quantity)
    {
      this.id := id;
    }

    method SetItemName(itemName: Option<string>)
      modifies this
      ensures this.itemName == itemName
      ensures id == old(id) && price == old(price) && quantity == old(quantity)
    {
      this.itemName := itemName;
    }

    method SetPrice(price: Option<int>)
      modifies this
      ensures this.price == price
      ensures id == old(id) && itemName == old(itemName) && quantity == old(quantity)
    {
      this.price := price;
    }

    method SetQuantity(quantity: Option<int>)
      modifies this
      ensures this.quantity == quantity
      ensures id == old(id) && itemName == old(itemName) && price == old(price)
    {
      this.quantity := quantity;
    }
  }
}
