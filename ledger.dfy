/** The item stock ledger: class `Item` of mian.py and its guarded stock adjustment. */
module Ledger {
  import opened Wrappers

  type ItemId = string

  /** Amounts of money in integer cents; the source only stores, compares and multiplies them. */
  type Money = int

  /** What the rest of the system observes of an item: its stock and its unit price. */
  datatype ItemView = ItemView(stock: int, unitPrice: Money)

  /** The stock after adjusting `stock` by `amount`, or None when the change would
      leave it negative (the source raises ValueError and leaves the stock alone). */
  function Adjust(stock: int, amount: int): (r: Option<int>)
    ensures r.None? <==> stock + amount < 0
    ensures r.Some? ==> r.value >= 0 && r.value - amount == stock
  {
    if stock + amount < 0 then None else Some(stock + amount)
  }

  /** A reservation of a non-negative quantity can always be credited back, and
      crediting it back restores the stock exactly. */
  lemma ReleaseUndoesReserve(stock: int, quantity: int)
    requires quantity >= 0 && Adjust(stock, -quantity).Some?
    ensures Adjust(Adjust(stock, -quantity).value, quantity) == Some(stock)
  {
  }

  /** One stocked item. Only `stock` changes after creation. */
  class Item {
    const itemId: ItemId
    const unitPrice: Money
    var stock: int

    ghost function View(): ItemView
      reads this
    {
      ItemView(stock, unitPrice)
    }

    constructor (itemId: ItemId, stock: int, unitPrice: Money)
      ensures this.itemId == itemId && View() == ItemView(stock, unitPrice)
    {
      this.itemId := itemId;
      this.stock := stock;
      this.unitPrice := unitPrice;
    }

    /** Changes the stock by `amount`; refuses (`ok` false, stock untouched) when
        the result would be negative. */
    method AdjustStock(amount: int) returns (ok: bool)
      modifies this
      ensures ok <==> old(stock) + amount >= 0
      ensures stock == Adjust(old(stock), amount).GetOr(old(stock))
      ensures old(stock) >= 0 ==> stock >= 0
    {
      if stock + amount < 0 {
        return false;
      }
      stock := stock + amount;
      return true;
    }
  }
}
