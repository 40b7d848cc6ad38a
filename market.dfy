/** The state of an `InventoryManager` (mian.py:102-269) as a value, and each of its
    operations as a function from the state before to the state after. The class in
    module Inventory is proved to follow these functions; the lemmas here are the
    properties the manager keeps. */
module Market {
  import opened Wrappers
  import opened Ledger
  import opened Bidding
  import opened OfferIds

  /** Items by id, offers by id, and the counter for the next offer id. */
  datatype Snapshot = Snapshot(
    items: map<ItemId, ItemView>, offers: map<OfferId, OfferView>, nextOfferId: nat)

  /** The offer ids issued while the counter went from 1 up to `n`. */
  ghost function Issued(n: nat): set<OfferId>
  {
    set i: nat | 1 <= i < n :: OfferIdFor(i)
  }

  /** What holds of every reachable state: stocks are never negative, every offer id
      was issued by the counter, every offer is for a known item and holds at most one
      bid per merchant, and an offer still active has no winner yet. */
  ghost predicate Consistent(s: Snapshot)
  {
    && 1 <= s.nextOfferId
    && (forall id :: id in s.items ==> 0 <= s.items[id].stock)
    && (forall id :: id in s.offers ==>
          id in Issued(s.nextOfferId) && s.offers[id].itemId in s.items &&
          DistinctMerchants(s.offers[id].bids) &&
          (s.offers[id].status == Active ==> s.offers[id].winner == None && s.offers[id].winningBid == 0))
  }

  /** The state `__init__` and `_load_initial_inventory` set up (prices in cents). */
  function Initial(): (s: Snapshot)
    ensures Consistent(s) && s.offers == map[] && s.nextOfferId == 1
  {
    Snapshot(
      map["TS-A" := ItemView(50, 2000), "TS-B" := ItemView(20, 2500), "SH-C" := ItemView(65, 2500)],
      map[], 1)
  }

  /** `item.adjust_stock(amount)` on a known item: the new state, or None when refused.
      Refused exactly when the stock would go negative; otherwise only that item's stock
      moves, by `amount`. */
  function AdjustItem(s: Snapshot, itemId: ItemId, amount: int): (r: Option<Snapshot>)
    requires itemId in s.items
    ensures r.None? <==> s.items[itemId].stock + amount < 0
    ensures r.Some? ==>
      && r.value.offers == s.offers && r.value.nextOfferId == s.nextOfferId
      && r.value.items.Keys == s.items.Keys
      && r.value.items[itemId].stock == s.items[itemId].stock + amount
      && r.value.items[itemId].unitPrice == s.items[itemId].unitPrice
      && (forall id :: id in s.items && id != itemId ==> r.value.items[id] == s.items[id])
  {
    match Adjust(s.items[itemId].stock, amount)
    case None => None
    case Some(n) => Some(s.(items := s.items[itemId := s.items[itemId].(stock := n)]))
  }

  /** `update_stock`: adjusts one item's stock; an unknown item or a change that would
      make the stock negative leaves everything as it was. */
  function UpdateStock(s: Snapshot, itemId: ItemId, amount: int): (t: Snapshot)
    ensures itemId !in s.items || s.items[itemId].stock + amount < 0 ==> t == s
    ensures itemId in s.items && 0 <= s.items[itemId].stock + amount ==>
      t == s.(items := s.items[itemId := s.items[itemId].(stock := s.items[itemId].stock + amount)])
  {
    if itemId !in s.items then s else AdjustItem(s, itemId, amount).GetOr(s)
  }

  /** `create_new_offer`: reserves `quantity` units and registers a new active offer
      under the next id. An unknown item or too little stock changes nothing, not even
      the counter. */
  function CreateOffer(s: Snapshot, itemId: ItemId, quantity: int, endTime: Time): (r: (Snapshot, Option<OfferId>))
    ensures r.1.Some? <==> itemId in s.items && quantity <= s.items[itemId].stock
    ensures r.1.None? ==> r.0 == s
    ensures r.1.Some? ==>
      && r.1.value == OfferIdFor(s.nextOfferId)
      && r.0.nextOfferId == s.nextOfferId + 1
      && r.0.items == s.items[itemId := s.items[itemId].(stock := s.items[itemId].stock - quantity)]
      && r.0.offers == s.offers[r.1.value := NewOffer(itemId, quantity, endTime)]
  {
    if itemId !in s.items then (s, None)
    else
      match AdjustItem(s, itemId, -quantity)
      case None => (s, None)
      case Some(reserved) =>
        var id := OfferIdFor(s.nextOfferId);
        (reserved.(offers := s.offers[id := NewOffer(itemId, quantity, endTime)],
                   nextOfferId := s.nextOfferId + 1),
         Some(id))
  }

  /** `track_bid`: hands the bid to the offer; an unknown offer or a refused bid
      changes nothing, and only the offer's bid list can change. */
  function TrackBid(s: Snapshot, offerId: OfferId, merchant: MerchantId, amount: Money, now: Time): (t: Snapshot)
    ensures offerId !in s.offers ==> t == s
    ensures offerId in s.offers && (s.offers[offerId].status != Active || s.offers[offerId].endTime < now) ==> t == s
    ensures t.items == s.items && t.nextOfferId == s.nextOfferId
    ensures offerId in s.offers ==>
      t.offers == s.offers[offerId := s.offers[offerId].(bids :=
        AfterBid(s.offers[offerId].status, s.offers[offerId].endTime, s.offers[offerId].bids, merchant, amount, now))]
  {
    if offerId !in s.offers then s
    else
      var o := s.offers[offerId];
      if AcceptsBid(o.status, o.endTime, o.bids, merchant, amount, now)
      then s.(offers := s.offers[offerId := o.(bids := Put(o.bids, merchant, amount))])
      else s
  }

  /** Python truthiness of the merchant `get_highest_bid` returns: None and the empty
      string are false. A truthy winner is a merchant with a non-empty id. */
  predicate Truthy(winner: Option<MerchantId>)
    ensures Truthy(winner) <==> winner.Some? && 0 < |winner.value|
  {
    winner.Some? && winner.value != ""
  }

  /** `complete_bid` at time `now`. */
  function CompleteBid(s: Snapshot, offerId: OfferId, now: Time): (t: Snapshot)
    ensures offerId !in s.offers || s.offers[offerId].status != Active || now <= s.offers[offerId].endTime ==> t == s
    ensures t.nextOfferId == s.nextOfferId && t.offers.Keys == s.offers.Keys
    ensures offerId in s.offers && s.offers[offerId].status == Active && s.offers[offerId].endTime < now ==>
      var o := s.offers[offerId];
      var best := HighestBid(o.bids);
      && t.offers[offerId].status == Completed
      && (forall id :: id in s.offers && id != offerId ==> t.offers[id] == s.offers[id])
      && (Truthy(best.0) ==>
            t.items == s.items &&
            t.offers[offerId] == o.(status := Completed, winner := best.0, winningBid := best.1))
      && (!Truthy(best.0) ==>
            t.offers[offerId] == o.(status := Completed) &&
            t.items == UpdateStock(s, o.itemId, o.quantity).items)
  {
    if offerId !in s.offers then s
    else
      var o := s.offers[offerId];
      if o.status != Active then s
      else if now <= o.endTime then s
      else
        var (winnerId, winningBid) := HighestBid(o.bids);
        if Truthy(winnerId) then
          s.(offers := s.offers[offerId := o.(status := Completed, winner := winnerId, winningBid := winningBid)])
        else
          var returned := UpdateStock(s, o.itemId, o.quantity);
          returned.(offers := s.offers[offerId := o.(status := Completed)])
  }

  /** `process_one_off_order`: sells `quantity` units at the unit price, or changes
      nothing when the item is unknown or short. */
  function OneOffOrder(s: Snapshot, itemId: ItemId, quantity: int): (r: (Snapshot, Option<Money>))
    ensures r.1.Some? <==> itemId in s.items && quantity <= s.items[itemId].stock
    ensures r.1.None? ==> r.0 == s
    ensures r.1.Some? ==>
      && r.1.value == s.items[itemId].unitPrice * quantity
      && r.0 == s.(items := s.items[itemId := s.items[itemId].(stock := s.items[itemId].stock - quantity)])
  {
    if itemId !in s.items then (s, None)
    else
      match AdjustItem(s, itemId, -quantity)
      case None => (s, None)
      case Some(sold) => (sold, Some(s.items[itemId].unitPrice * quantity))
  }

  /** One call on the manager. */
  datatype Request =
    | UpdateStockRequest(itemId: ItemId, amount: int)
    | CreateOfferRequest(itemId: ItemId, quantity: int, endTime: Time)
    | TrackBidRequest(offerId: OfferId, merchant: MerchantId, amount: Money, now: Time)
    | CompleteBidRequest(offerId: OfferId, now: Time)
    | OneOffOrderRequest(itemId: ItemId, quantity: int)

  function Step(s: Snapshot, r: Request): Snapshot
  {
    match r
    case UpdateStockRequest(itemId, amount) => UpdateStock(s, itemId, amount)
    case CreateOfferRequest(itemId, quantity, endTime) => CreateOffer(s, itemId, quantity, endTime).0
    case TrackBidRequest(offerId, merchant, amount, now) => TrackBid(s, offerId, merchant, amount, now)
    case CompleteBidRequest(offerId, now) => CompleteBid(s, offerId, now)
    case OneOffOrderRequest(itemId, quantity) => OneOffOrder(s, itemId, quantity).0
  }

  /** The state after a series of calls, made one after another. */
  function Run(s: Snapshot, rs: seq<Request>): Snapshot
    decreases |rs|
  {
    if rs == [] then s else Run(Step(s, rs[0]), rs[1..])
  }

  lemma IssuedGrows(n: nat)
    ensures Issued(n) <= Issued(n + 1)
    ensures OfferIdFor(n) in Issued(n + 1) <==> 1 <= n
  {
    if 1 <= n {
      assert OfferIdFor(n) in Issued(n + 1);
    }
  }

  /** The id a new offer gets was never issued before, so registering the offer never
      replaces an existing one. */
  lemma NextIdIsFresh(s: Snapshot)
    requires Consistent(s)
    ensures OfferIdFor(s.nextOfferId) !in s.offers
  {
    if OfferIdFor(s.nextOfferId) in s.offers {
      var i: nat :| 1 <= i < s.nextOfferId && OfferIdFor(i) == OfferIdFor(s.nextOfferId);
      OfferIdInjective(i, s.nextOfferId);
    }
  }

  lemma UpdateStockKeepsConsistent(s: Snapshot, itemId: ItemId, amount: int)
    requires Consistent(s)
    ensures Consistent(UpdateStock(s, itemId, amount))
  {
  }

  /** A successful `create_new_offer` adds exactly one offer, under an id not used before. */
  lemma CreateOfferKeepsConsistent(s: Snapshot, itemId: ItemId, quantity: int, endTime: Time)
    requires Consistent(s)
    ensures var (t, id) := CreateOffer(s, itemId, quantity, endTime);
      && Consistent(t)
      && (id.Some? ==> id.value !in s.offers && t.offers.Keys == s.offers.Keys + {id.value})
  {
    var (t, id) := CreateOffer(s, itemId, quantity, endTime);
    if id.Some? {
      NextIdIsFresh(s);
      IssuedGrows(s.nextOfferId);
    }
  }

  lemma TrackBidKeepsConsistent(s: Snapshot, offerId: OfferId, merchant: MerchantId, amount: Money, now: Time)
    requires Consistent(s)
    ensures Consistent(TrackBid(s, offerId, merchant, amount, now))
  {
    if offerId in s.offers {
      PutKeepsDistinct(s.offers[offerId].bids, merchant, amount);
    }
  }

  lemma CompleteBidKeepsConsistent(s: Snapshot, offerId: OfferId, now: Time)
    requires Consistent(s)
    ensures Consistent(CompleteBid(s, offerId, now))
  {
  }

  lemma OneOffOrderKeepsConsistent(s: Snapshot, itemId: ItemId, quantity: int)
    requires Consistent(s)
    ensures Consistent(OneOffOrder(s, itemId, quantity).0)
  {
  }

  lemma StepKeepsConsistent(s: Snapshot, r: Request)
    requires Consistent(s)
    ensures Consistent(Step(s, r))
  {
    match r
    case UpdateStockRequest(itemId, amount) => UpdateStockKeepsConsistent(s, itemId, amount);
    case CreateOfferRequest(itemId, quantity, endTime) => CreateOfferKeepsConsistent(s, itemId, quantity, endTime);
    case TrackBidRequest(offerId, merchant, amount, now) => TrackBidKeepsConsistent(s, offerId, merchant, amount, now);
    case CompleteBidRequest(offerId, now) => CompleteBidKeepsConsistent(s, offerId, now);
    case OneOffOrderRequest(itemId, quantity) => OneOffOrderKeepsConsistent(s, itemId, quantity);
  }

  /** Whatever calls are made, in whatever order, from the initial inventory: no
      stock ever goes negative. */
  lemma {:induction false} StockNeverNegative(s: Snapshot, rs: seq<Request>)
    requires Consistent(s)
    ensures Consistent(Run(s, rs))
    ensures forall id :: id in Run(s, rs).items ==> 0 <= Run(s, rs).items[id].stock
    decreases |rs|
  {
    if rs != [] {
      StepKeepsConsistent(s, rs[0]);
      StockNeverNegative(Step(s, rs[0]), rs[1..]);
    }
  }

  /** An offer's item, quantity and end time never change, an offer is never removed,
      and once it has left `Active` no call changes it again. */
  lemma StepKeepsOffers(s: Snapshot, r: Request, offerId: OfferId)
    requires Consistent(s) && offerId in s.offers
    ensures var o, o' := s.offers[offerId], Step(s, r).offers[offerId];
      && offerId in Step(s, r).offers
      && o'.itemId == o.itemId && o'.quantity == o.quantity && o'.endTime == o.endTime
      && (o.status != Active ==> o' == o)
      && (o'.status == Active ==> o' == o.(bids := o'.bids))
  {
    if r.CreateOfferRequest? {
      CreateOfferKeepsConsistent(s, r.itemId, r.quantity, r.endTime);
    }
  }

  /** Completion happens once: after `complete_bid` has changed an offer, it is
      completed and every later `complete_bid` of it is a no-op. */
  lemma CompleteBidIsOneShot(s: Snapshot, offerId: OfferId, now: Time, later: Time)
    requires CompleteBid(s, offerId, now) != s
    ensures var t := CompleteBid(s, offerId, now);
      offerId in t.offers && t.offers[offerId].status == Completed && CompleteBid(t, offerId, later) == t
  {
  }

  /** Completing an offer that received no bids credits its reservation back in full;
      for a non-negative quantity this can never be refused. */
  lemma NoBidCompletionReturnsReservation(s: Snapshot, offerId: OfferId, now: Time)
    requires Consistent(s) && offerId in s.offers
    requires var o := s.offers[offerId];
      o.status == Active && o.endTime < now && o.bids == [] && 0 <= o.quantity
    ensures var o := s.offers[offerId];
      var t := CompleteBid(s, offerId, now);
      && t.items == s.items[o.itemId := s.items[o.itemId].(stock := s.items[o.itemId].stock + o.quantity)]
      && t.offers[offerId].winner == None && t.offers[offerId].status == Completed
  {
  }

  /** An offer nobody bid on leaves the stock as it was before the offer was created:
      the reservation is undone exactly, whatever the sign of its quantity. */
  lemma UnsoldReservationIsUndone(s: Snapshot, itemId: ItemId, quantity: int, endTime: Time, now: Time)
    requires Consistent(s) && endTime < now
    requires CreateOffer(s, itemId, quantity, endTime).1.Some?
    ensures var (created, id) := CreateOffer(s, itemId, quantity, endTime);
      var t := CompleteBid(created, id.value, now);
      && t.items == s.items
      && t.offers[id.value] == NewOffer(itemId, quantity, endTime).(status := Completed)
  {
    var (created, id) := CreateOffer(s, itemId, quantity, endTime);
    CreateOfferKeepsConsistent(s, itemId, quantity, endTime);
    var t := CompleteBid(created, id.value, now);
    assert t.items == s.items[itemId := s.items[itemId].(stock := s.items[itemId].stock - quantity + quantity)];
  }

  /** An offer that sells keeps its reserved units out of stock: one bid from a merchant
      inside the window makes that merchant the winner at that amount, and the stock
      stays where the reservation put it. */
  lemma SoldReservationStaysOut(s: Snapshot, itemId: ItemId, quantity: int, endTime: Time,
                                merchant: MerchantId, amount: Money, bidTime: Time, now: Time)
    requires Consistent(s) && bidTime <= endTime < now && merchant != ""
    requires CreateOffer(s, itemId, quantity, endTime).1.Some?
    ensures var (created, id) := CreateOffer(s, itemId, quantity, endTime);
      var t := CompleteBid(TrackBid(created, id.value, merchant, amount, bidTime), id.value, now);
      && t.items[itemId].stock == s.items[itemId].stock - quantity
      && t.offers[id.value].status == Completed
      && t.offers[id.value].winner == Some(merchant) && t.offers[id.value].winningBid == amount
  {
    var (created, id) := CreateOffer(s, itemId, quantity, endTime);
    assert created.offers[id.value].bids == [];
    var bid := TrackBid(created, id.value, merchant, amount, bidTime);
    assert bid.offers[id.value].bids == [Bid(merchant, amount)];
  }
}
