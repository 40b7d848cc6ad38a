/** `InventoryManager` (mian.py:102-269): the items and offers it owns, keyed by id, and
    the offer-id counter. The ghost field `model` is the manager's state as a
    Market.Snapshot; the constructor sets it to Market.Initial() and each of the five
    source operations (UpdateStock, CreateNewOffer, TrackBid, CompleteBid,
    ProcessOneOffOrder) is proved to change it exactly as the function of the same name
    in module Market says. A manager used through those operations is thus always in a
    Market.Run from Market.Initial(), and the invariants Market proves for those
    (Market.StockNeverNegative) hold of it. The remaining methods are internal steps of
    `_load_initial_inventory`, `create_new_offer` and `complete_bid` and state their
    effect directly. Clock reads become a `now` parameter. */
module Inventory {
  import opened Wrappers
  import opened Ledger
  import opened Bidding
  import opened OfferIds
  import Market

  class InventoryManager {
    var inventory: map<ItemId, Item>
    var offers: map<OfferId, Offer>
    var nextOfferId: nat

    /** The public view of the manager. */
    ghost var model: Market.Snapshot

    /** Every object sits under its own id and shows what `model` says of it. */
    ghost predicate Valid()
      reads this, inventory.Values, offers.Values
    {
      && inventory.Keys == model.items.Keys
      && (forall id :: id in inventory ==>
            inventory[id].itemId == id && inventory[id].View() == model.items[id])
      && offers.Keys == model.offers.Keys
      && (forall id :: id in offers ==>
            offers[id].offerId == id && offers[id].View() == model.offers[id])
      && nextOfferId == model.nextOfferId
    }

    /** `__init__` followed by `_load_initial_inventory`. */
    constructor ()
      ensures Valid() && model == Market.Initial()
      ensures fresh(inventory.Values) && offers == map[]
    {
      inventory := map[];
      offers := map[];
      nextOfferId := 1;
      model := Market.Initial();
      new;
      LoadInitialInventory();
    }

    /** Registers the three seed items under their ids. */
    method LoadInitialInventory()
      requires inventory == map[]
      modifies this`inventory
      ensures fresh(inventory.Values)
      ensures inventory.Keys == Market.Initial().items.Keys
      ensures forall id :: id in inventory ==>
        inventory[id].itemId == id && inventory[id].View() == Market.Initial().items[id]
    {
      var shirtA := new Item("TS-A", 50, 2000);
      var shirtB := new Item("TS-B", 20, 2500);
      var shorts := new Item("SH-C", 65, 2500);
      var items := [shirtA, shirtB, shorts];
      for i := 0 to |items|
        invariant fresh(inventory.Values)
        invariant inventory.Keys == set j | 0 <= j < i :: items[j].itemId
        invariant forall j :: 0 <= j < i ==> inventory[items[j].itemId] == items[j]
        modifies this`inventory
      {
        inventory := inventory[items[i].itemId := items[i]];
      }
      assert items[0].itemId == "TS-A" && items[1].itemId == "TS-B" && items[2].itemId == "SH-C";
      assert inventory.Keys == {"TS-A", "TS-B", "SH-C"} by {
        forall id | id in inventory ensures id in {"TS-A", "TS-B", "SH-C"} {
          var j :| 0 <= j < 3 && items[j].itemId == id;
        }
      }
    }

    /** `item.adjust_stock(amount)` on the item registered under `itemId`, with the
        model following it. */
    method AdjustItemStock(itemId: ItemId, amount: int) returns (ok: bool)
      requires Valid() && itemId in inventory
      modifies this`model, inventory.Values
      ensures Valid()
      ensures ok <==> 0 <= old(model).items[itemId].stock + amount
      ensures model == Market.AdjustItem(old(model), itemId, amount).GetOr(old(model))
    {
      var item := inventory[itemId];
      ok := item.AdjustStock(amount);
      model := model.(items := model.items[itemId := item.View()]);
    }

    /** `update_stock`: a manual adjustment; an unknown item or a refused adjustment
        leaves everything as it was. */
    method UpdateStock(itemId: ItemId, adjustment: int)
      requires Valid()
      modifies this`model, inventory.Values
      ensures Valid()
      ensures model == Market.UpdateStock(old(model), itemId, adjustment)
    {
      if itemId !in inventory {
        return;
      }
      var ok := AdjustItemStock(itemId, adjustment);
    }

    /** `create_new_offer`: reserves the stock, then registers a new active offer under
        the next id; None (and no change at all) for an unknown item or short stock. */
    method CreateNewOffer(itemId: ItemId, quantity: int, endTime: Time) returns (offerId: Option<OfferId>)
      requires Valid()
      modifies this`model, this`offers, this`nextOfferId, inventory.Values
      ensures Valid()
      ensures (model, offerId) == Market.CreateOffer(old(model), itemId, quantity, endTime)
      ensures fresh(offers.Values - old(offers.Values))
    {
      if itemId !in inventory {
        return None;
      }
      ghost var before := model;
      var ok := AdjustItemStock(itemId, -quantity);
      if !ok {
        return None;
      }
      ghost var reserved := model;
      assert Market.AdjustItem(before, itemId, -quantity) == Some(reserved);
      var id := RegisterOffer(itemId, quantity, endTime);
      return Some(id);
    }

    /** The second half of `create_new_offer`: a fresh active offer under the next id,
        and the counter moved on. */
    method RegisterOffer(itemId: ItemId, quantity: int, endTime: Time) returns (id: OfferId)
      requires Valid()
      modifies this`offers, this`nextOfferId, this`model
      ensures Valid()
      ensures id == OfferIdFor(old(nextOfferId))
      ensures model == old(model).(offers := old(model).offers[id := NewOffer(itemId, quantity, endTime)],
                                   nextOfferId := old(model).nextOfferId + 1)
      ensures fresh(offers.Values - old(offers.Values))
    {
      id := OfferIdFor(nextOfferId);
      nextOfferId := nextOfferId + 1;
      var offer := new Offer(id, itemId, quantity, endTime);
      offers := offers[id := offer];
      model := model.(offers := model.offers[id := offer.View()], nextOfferId := nextOfferId);
    }

    /** `track_bid`: hands the bid to the offer; an unknown offer is ignored. */
    method TrackBid(offerId: OfferId, merchant: MerchantId, amount: Money, now: Time)
      requires Valid()
      modifies this`model, offers.Values
      ensures Valid()
      ensures model == Market.TrackBid(old(model), offerId, merchant, amount, now)
    {
      if offerId !in offers {
        return;
      }
      var offer := offers[offerId];
      var accepted := offer.AddBid(merchant, amount, now);
      model := model.(offers := model.offers[offerId := offer.View()]);
    }

    /** `complete_bid` at time `now`: only an active offer whose window has closed is
        finalised, either recording the highest bidder or returning the reserved
        units to stock. */
    method CompleteBid(offerId: OfferId, now: Time)
      requires Valid()
      modifies this`model, inventory.Values, offers.Values
      ensures Valid()
      ensures model == Market.CompleteBid(old(model), offerId, now)
    {
      if offerId !in offers {
        return;
      }
      var offer := offers[offerId];
      if offer.status != Active {
        return;
      }
      if now <= offer.endTime {
        return;
      }
      var (winnerId, winningBid) := HighestBid(offer.bids);
      if Market.Truthy(winnerId) {
        RecordWinner(offerId, winnerId, winningBid);
      } else {
        // Returning the reserved units is `update_stock` on the offer's item: the same
        // lookup, the same adjustment, and a refusal changes nothing.
        UpdateStock(offer.itemId, offer.quantity);
        MarkCompleted(offerId);
      }
    }

    /** The first branch of `complete_bid`: the offer is closed with its winner. */
    method RecordWinner(offerId: OfferId, winnerId: Option<MerchantId>, winningBid: Money)
      requires Valid() && offerId in offers
      modifies this`model, offers.Values
      ensures Valid()
      ensures model == old(model).(offers := old(model).offers[offerId :=
        old(model).offers[offerId].(status := Completed, winner := winnerId, winningBid := winningBid)])
    {
      var offer := offers[offerId];
      offer.Award(winnerId, winningBid);
      model := model.(offers := model.offers[offerId := offer.View()]);
    }

    /** The end of the second branch of `complete_bid`: the offer is closed unsold. */
    method MarkCompleted(offerId: OfferId)
      requires Valid() && offerId in offers
      modifies this`model, offers.Values
      ensures Valid()
      ensures model == old(model).(offers := old(model).offers[offerId := old(model).offers[offerId].(status := Completed)])
    {
      var offer := offers[offerId];
      offer.status := Completed;
      model := model.(offers := model.offers[offerId := offer.View()]);
    }

    /** `process_one_off_order`: sells from stock and returns the total price, or None
        (and no change) for an unknown item or short stock. */
    method ProcessOneOffOrder(itemId: ItemId, quantity: int) returns (totalPrice: Option<Money>)
      requires Valid()
      modifies this`model, inventory.Values
      ensures Valid()
      ensures (model, totalPrice) == Market.OneOffOrder(old(model), itemId, quantity)
    {
      if itemId !in inventory {
        return None;
      }
      var ok := AdjustItemStock(itemId, -quantity);
      if !ok {
        return None;
      }
      return Some(inventory[itemId].unitPrice * quantity);
    }
  }
}
