# Inventory and sealed-bid offers, in Dafny

A model of `mian.py`, the inventory-and-auction backend: a manager owns a fixed set of
items (stock and unit price), sells units directly (one-off orders), and runs
time-boxed offers. An offer reserves units of one item when it is created, collects at
most one bid per merchant (a merchant may only raise its own bid), and is completed
once its window has closed: the highest bidder wins and the reserved units stay out of
stock, or, with no bids, the reserved units go back to stock.

Modules, leaf first:

- `Wrappers` (`wrappers.dfy`): `Option`.
- `Ledger` (`ledger.dfy`): class `Item` and the guarded stock adjustment `adjust_stock`,
  with its value-level counterpart `Adjust`.
- `Bidding` (`bidding.dfy`): class `Offer`. The bid dictionary is an insertion-ordered
  list of `(merchant, amount)` entries (`Lookup` reads it, `Put` writes it as
  `bids[m] = amount` does), bid acceptance (`AcceptsBid`, `AfterBid`) and
  `get_highest_bid` (`HighestBid`), which returns the earliest-inserted entry among
  those with the greatest amount, as Python's `max` over a dict does.
- `OfferIds` (`offer_ids.dfy`): offer ids `"OFFER-" + str(n)`, and the proof that
  distinct counter values give distinct ids.
- `Market` (`market.dfy`): the manager's whole state as a value (`Snapshot`) and every
  manager operation as a function from the state before to the state after (and the
  returned value). The properties of the system are proved here: the invariant
  `Consistent` is kept by every operation and so holds after any sequence of calls
  from the initial inventory (`StockNeverNegative`). Offers are never removed and
  their terms never change. Completion happens at most once. An unsold reservation is
  undone exactly, and a sold one stays out of stock.
- `Inventory` (`inventory.dfy`): class `InventoryManager`. It keeps maps of `Item` and
  `Offer` objects and the id counter, plus a ghost field `model: Snapshot`. `Valid()`
  says that every object sits under its own id and shows what `model` says of it.
  The constructor sets `model` to `Market.Initial()`. Each of the five source
  operations (`UpdateStock`, `CreateNewOffer`, `TrackBid`, `CompleteBid`,
  `ProcessOneOffOrder`) ensures `model == Market.<Op>(old(model), ...)`, and
  `CreateNewOffer` and `ProcessOneOffOrder` also ensure that their return value is
  the one Market's function gives. A manager driven only through the constructor and
  those operations is therefore always in the state `Market.Run` gives for its calls
  from `Market.Initial()`, and the Market lemmas apply to it. The other methods are
  steps inside them and spell out their effect directly: `LoadInitialInventory` is
  `_load_initial_inventory` (lines 112-123), `AdjustItemStock` is `adjust_stock` on a
  stored item, `RegisterOffer` is the second half of `create_new_offer` (lines
  171-176), and `RecordWinner` and `MarkCompleted` are the two ways `complete_bid`
  closes an offer (lines 224-227 and 244). Called on their own they can reach states
  no `Run` reaches (an offer without a reservation, a completion without the
  credit-back).
- `Scenario` (`scenario.dfy`): the run at the end of `mian.py`, replayed on `Market`
  stage by stage. It also includes an input that reaches the credit-back refusal the
  source logs as impossible.

Representation choices:

- Money (prices, bids) is an integer number of cents; the source only stores, compares
  and multiplies it by a quantity.
- The clock (`datetime.now()`) is a `now` parameter of every operation that reads it.
- `ValueError` raised and caught inside an operation becomes a `bool` or `Option`
  result. The effect is the same as in the source: nothing changes.

Where the code does something other than its own comments say, the model follows the
code:

- The docstring of `complete_bid` (line 201) says stock is returned when there are no
  bids, but the branch is chosen by the truthiness of the winning merchant id
  (`if winner_id:`, line 224). So an offer whose best bid comes from the merchant `""`
  is completed as unsold and its units are returned (`Market.Truthy`).
- The comment at line 242 says the credit-back of an unsold offer should never be
  refused. Quantities are never validated, though: a negative quantity raises the
  stock on reservation and on a one-off order (which then returns a negative price),
  and the credit-back of such an offer can then be refused, the offer being completed
  anyway (`Scenario.NegativeOfferCreditBackRefused`). For a non-negative quantity the
  credit-back is never refused (`Market.NoBidCompletionReturnsReservation`), and for
  any quantity an offer created and completed without bids leaves the stock as it was
  before (`Market.UnsoldReservationIsUndone`).

## Model

| member | source | states |
|---|---|---|
| `Ledger.Adjust` | mian.py:25-35 | the adjustment is refused exactly when the stock would go negative; otherwise the new stock is non-negative and differs from the old by exactly `amount` |
| `Ledger.ReleaseUndoesReserve` | mian.py:25-35 | crediting back a non-negative reservation that succeeded is never refused and restores the stock exactly |
| `Ledger.Item.constructor` | mian.py:16-23 | a new item has the given id, stock and unit price |
| `Ledger.Item.AdjustStock` | mian.py:25-35 | refuses exactly when `stock + amount < 0` and then leaves the stock untouched; otherwise adds `amount`; a non-negative stock stays non-negative |
| `Bidding.Lookup` | mian.py:76 | the stored bid of a merchant, read from the dictionary: an amount it reports is one of that merchant's entries |
| `Bidding.Put` | mian.py:80 | `bids[m] = amount`: afterwards the entry `(m, amount)` is present, the dictionary has grown by at most one entry, and every other merchant's entry survives |
| `Bidding.AcceptsBid` | mian.py:64-78 | the guards of `add_bid`: nothing is accepted by an inactive offer or after its end time, and an active offer accepts any first bid of a merchant before its end time |
| `Bidding.AfterBid` | mian.py:60-82 | the bid dictionary after `add_bid`: it never shrinks and keeps one entry per merchant |
| `Bidding.NewOffer` | mian.py:50-58 | a new offer has the given item, quantity and end time, reports no highest bidder, and until its end time accepts a first bid of any amount from any merchant |
| `Bidding.LookupAbsent` | mian.py:76 | `merchant_id in self.bids` is false exactly when no entry carries that merchant |
| `Bidding.LookupPut` | mian.py:80 | after `bids[m] = amount`, m's bid is `amount` and every other merchant's bid is as before |
| `Bidding.PutKeepsDistinct` | mian.py:80 | the bid list keeps at most one entry per merchant, as a dict does |
| `Bidding.PutKeepsOrder` | mian.py:80 | a new merchant's entry goes to the end; a raised bid is rewritten where it stands and nothing else moves (dict insertion order, which decides ties) |
| `Bidding.BidsOnlyImprove` | mian.py:60-82 | no merchant loses a bid, a stored bid is only replaced by a strictly greater one, and only the bidder's entry can change |
| `Bidding.FirstMaxIndex` | mian.py:92 | the position `max(..., key=amount)` picks: its amount is at least every amount, and every earlier amount is strictly smaller |
| `Bidding.HighestBid` | mian.py:84-93 | `(None, 0)` exactly when there are no bids; otherwise an entry that is present, with an amount no bid exceeds |
| `Bidding.HighestBidIsFirstMaximum` | mian.py:92 | ties go to the earliest-inserted entry: whichever entry is maximal with only smaller amounts before it is the one returned |
| `Bidding.PutNeverLowers` | mian.py:76-80 | an accepted bid never lowers the amount at any position of the list |
| `Bidding.HighestBidNeverDrops` | mian.py:60-93 | once an offer has a bid, no bid attempt lowers its highest bid |
| `Bidding.Offer.constructor` | mian.py:50-58 | a new offer has the given id, item, quantity and end time, no bids, status active, no winner and winning bid 0 |
| `Bidding.Offer.Award` | mian.py:224-227 | the offer becomes completed with the given winner and winning bid; nothing else changes |
| `Bidding.Offer.AddBid` | mian.py:60-82 | refused when the offer is not active, when `now` is past the end time, or when the merchant's earlier bid is at least `amount`; accepted otherwise, and then the bid list becomes `bids[m] = amount`; one entry per merchant is kept |
| `OfferIds.OfferIdFor` | mian.py:171 | the offer id is `OFFER-` followed by decimal digits only |
| `OfferIds.Decimal` | mian.py:171 | `str(n)`: at least one character, all decimal digits, one digit exactly below 10, no leading zero |
| `OfferIds.ValueOfDecimal` | mian.py:171 | reading the digits back gives `n` again |
| `OfferIds.DecimalInjective` | mian.py:171 | different counter values are written differently |
| `OfferIds.OfferIdInjective` | mian.py:171-172 | different counter values give different offer ids |
| `Market.Initial` | mian.py:106-123 | the initial state satisfies the invariant, has no offers and starts the counter at 1; the seed items themselves (TS-A 50 at $20.00, TS-B 20 at $25.00, SH-C 65 at $25.00) are checked by `Scenario.SalesStage` |
| `Market.AdjustItem` | mian.py:29-34 | `adjust_stock` on a stored item: refused exactly when the stock would go negative; otherwise only that item's stock moves, by the amount, and its price, the other items, the offers and the counter stay |
| `Market.UpdateStock` | mian.py:142-155 | an unknown item or an adjustment below zero changes nothing; otherwise exactly that item's stock changes, by the adjustment |
| `Market.CreateOffer` | mian.py:158-183 | an id is returned exactly when the item exists and has at least `quantity` units. It is then `OFFER-<counter>`, the counter moves on by one, the item's stock drops by `quantity`, and a new active offer without bids is registered under it. Otherwise nothing changes, not even the counter |
| `Market.TrackBid` | mian.py:186-195 | an unknown offer, a closed window or an inactive offer changes nothing; items and counter never change; only that offer's bids change, as `add_bid` decides |
| `Market.Truthy` | mian.py:224 | `if winner_id:` holds exactly for a merchant id that is present and non-empty |
| `Market.CompleteBid` | mian.py:198-244 | nothing changes for an unknown or inactive offer or before the window closes. Otherwise the offer is completed and no other offer changes. With a (truthy) highest bidder, the winner and amount are recorded and stock is untouched. Without one, the reserved quantity is credited back as `update_stock` would do it |
| `Market.OneOffOrder` | mian.py:247-269 | a price is returned exactly when the item exists and has at least `quantity` units; it is `unit_price * quantity` and the stock drops by `quantity`; otherwise nothing changes |
| `Market.IssuedGrows` | mian.py:171-172 | the set of issued ids only grows as the counter advances, and the id for `n` is issued once the counter passes it |
| `Market.NextIdIsFresh` | mian.py:171-175 | the next id was never issued, so registering a new offer never replaces an existing one |
| `Market.UpdateStockKeepsConsistent` | mian.py:142-155 | `update_stock` keeps the invariant (stocks non-negative, offers under issued ids, for known items, one bid per merchant, no winner while active) |
| `Market.CreateOfferKeepsConsistent` | mian.py:158-183 | `create_new_offer` keeps the invariant and, on success, adds exactly one offer under an id not used before |
| `Market.TrackBidKeepsConsistent` | mian.py:186-195 | `track_bid` keeps the invariant, in particular one bid per merchant |
| `Market.CompleteBidKeepsConsistent` | mian.py:198-244 | `complete_bid` keeps the invariant |
| `Market.OneOffOrderKeepsConsistent` | mian.py:247-269 | `process_one_off_order` keeps the invariant |
| `Market.StepKeepsConsistent` | mian.py:142-269 | every manager operation keeps the invariant |
| `Market.StockNeverNegative` | mian.py:29-34 | after any sequence of calls from a consistent state, the invariant holds and no item's stock is negative |
| `Market.StepKeepsOffers` | mian.py:50-58 | no call removes an offer or changes its item, quantity or end time; a non-active offer is never changed again; while active only its bids change |
| `Market.CompleteBidIsOneShot` | mian.py:208-210 | a completion that changed something leaves the offer completed, and every later completion of it is a no-op |
| `Market.NoBidCompletionReturnsReservation` | mian.py:233-244 | completing an offer without bids (non-negative quantity) credits exactly its quantity back, records no winner and marks it completed |
| `Market.UnsoldReservationIsUndone` | mian.py:158-244 | creating an offer (of any quantity) and completing it without bids leaves every stock exactly as before, and the offer completed with no winner |
| `Market.SoldReservationStaysOut` | mian.py:158-232 | creating an offer, one bid from a (non-empty) merchant in the window, and completion after it: that merchant wins at that amount and the stock stays reduced by the quantity |
| `Inventory.InventoryManager.constructor` | mian.py:106-110 | the new manager is valid, its state is the initial one, its items are new objects and it has no offers |
| `Inventory.InventoryManager.LoadInitialInventory` | mian.py:112-123 | the three seed items are registered under their own ids with their stock and price |
| `Inventory.InventoryManager.AdjustItemStock` | mian.py:29-34 | `item.adjust_stock` on a registered item: refused exactly when the stock would go negative; the state changes as `Market.AdjustItem` says |
| `Inventory.InventoryManager.UpdateStock` | mian.py:142-155 | the manager's state changes exactly as `Market.UpdateStock` says |
| `Inventory.InventoryManager.CreateNewOffer` | mian.py:158-183 | state and returned id are exactly those of `Market.CreateOffer`; the only new objects are the new offer |
| `Inventory.InventoryManager.RegisterOffer` | mian.py:171-176 | the id is built from the counter, the counter moves on, and a new offer object is registered under that id |
| `Inventory.InventoryManager.TrackBid` | mian.py:186-195 | the manager's state changes exactly as `Market.TrackBid` says |
| `Inventory.InventoryManager.CompleteBid` | mian.py:198-244 | the manager's state changes exactly as `Market.CompleteBid` says |
| `Inventory.InventoryManager.RecordWinner` | mian.py:224-227 | only the offer changes: completed, with the winner and winning bid |
| `Inventory.InventoryManager.MarkCompleted` | mian.py:244 | only the offer changes: its status becomes completed |
| `Inventory.InventoryManager.ProcessOneOffOrder` | mian.py:247-269 | state and returned price are exactly those of `Market.OneOffOrder` |
| `Scenario.SalesStage` | mian.py:286-298 | writing off 5 of TS-A leaves 45, writing off 1000 is refused, selling 2 TS-B costs $50.00 and leaves 18, selling 100 is refused |
| `Scenario.OfferStage` | mian.py:300-308 | OFFER-1 reserves 20 TS-A, which leaves 25; an offer of 1000 is refused |
| `Scenario.BiddingStage` | mian.py:310-316 | after Alpha $450, Beta $500 and Alpha $510 the bids are Alpha $510 then Beta $500 |
| `Scenario.ClosingStage` | mian.py:319-333 | early completion is a no-op, Gamma's late bid is refused, and completion records Alpha at $510 with TS-A left at 25 |
| `Scenario.NoBidStage` | mian.py:335-351 | OFFER-2 reserves 5 TS-B, which leaves 13; completed without bids it is unsold and TS-B is back at 18 |
| `Scenario.NegativeOfferCreditBackRefused` | mian.py:233-244 | an offer of -5 units, once its extra units are sold, cannot be credited back: the adjustment is refused and the offer is completed anyway |

## Left out

- Logging, `print`, `__repr__` and `view_item_details` (lines 37-44, 95-99, 126-139): output only; they change no state.
- The item fields name, category, last-restock date and reorder threshold: stored, never read by any operation.
- Floating-point money: prices and bids are integer cents, so `unit_price * quantity` is exact here where the source's float product may round.
- The wall clock and `time.sleep` of the scripted run: times are explicit `now` arguments and the scenario uses fixed instants.
- `Cancelled`: representable in `Status`, but no operation produces it.
- Inventory.InventoryManager.Valid: does not carry `Market.Consistent` as a class invariant, to keep each method's proof small. Consistency of the manager's state follows from the contracts of the constructor and the five source operations (each equals a `Market` function, whose invariant lemmas apply); it is not promised after direct calls of the internal steps `RegisterOffer`, `RecordWinner` or `MarkCompleted`.
- Inventory.InventoryManager.CompleteBid: returns reserved units through `UpdateStock`, which does the same lookup and adjustment as the inline code at lines 235-242; it logs differently, which is not modelled.
- Bidding.HighestBidNeverDrops: stated for offers that already have a bid, because with no bids the reported amount is the placeholder 0, which a negative first bid undercuts.
