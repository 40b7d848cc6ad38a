/** Sealed-bid offers: class `Offer` of mian.py. The per-merchant bid dictionary is an
    insertion-ordered list of (merchant, amount) entries, as a Python dict is: updating a
    merchant's bid keeps its entry where it was, a new merchant goes to the end. */
module Bidding {
  import opened Wrappers
  import opened Ledger

  type MerchantId = string
  type OfferId = string

  /** Instants, as whatever the caller's clock reads; only compared. */
  type Time = int

  /** `Cancelled` exists in the source's vocabulary but no operation reaches it. */
  datatype Status = Active | Completed | Cancelled

  datatype Bid = Bid(merchant: MerchantId, amount: Money)

  /** The amount stored for merchant `m`, as `bids.get(m)` reads it: an amount it
      reports is one of m's entries. */
  function Lookup(bids: seq<Bid>, m: MerchantId): (r: Option<Money>)
    ensures r.Some? ==> Bid(m, r.value) in bids
  {
    if bids == [] then None
    else if bids[0].merchant == m then Some(bids[0].amount)
    else Lookup(bids[1..], m)
  }

  /** At most one entry per merchant, as in a dictionary keyed by merchant. */
  predicate DistinctMerchants(bids: seq<Bid>)
  {
    bids == [] || (Lookup(bids[1..], bids[0].merchant).None? && DistinctMerchants(bids[1..]))
  }

  /** `bids[m] = amount`: overwrite m's entry in place, or append a new one. The new
      entry is present, the list grows by at most one, and every other merchant's
      entry survives. */
  function Put(bids: seq<Bid>, m: MerchantId, amount: Money): (r: seq<Bid>)
    ensures Bid(m, amount) in r
    ensures |bids| <= |r| <= |bids| + 1
    ensures forall b :: b in bids && b.merchant != m ==> b in r
  {
    if bids == [] then [Bid(m, amount)]
    else if bids[0].merchant == m then [Bid(m, amount)] + bids[1..]
    else [bids[0]] + Put(bids[1..], m, amount)
  }

  lemma {:induction false} LookupAbsent(bids: seq<Bid>, m: MerchantId)
    ensures Lookup(bids, m).None? <==> forall i :: 0 <= i < |bids| ==> bids[i].merchant != m
  {
    if bids != [] {
      LookupAbsent(bids[1..], m);
      if Lookup(bids, m).None? {
        forall i | 0 <= i < |bids| ensures bids[i].merchant != m {
          if i > 0 { assert bids[i] == bids[1..][i - 1]; }
        }
      } else if bids[0].merchant != m {
        var i :| 0 <= i < |bids[1..]| && bids[1..][i].merchant == m;
        assert bids[i + 1].merchant == m;
      }
    }
  }

  /** After `bids[m] = amount`, m's bid is `amount` and every other merchant's is as before. */
  lemma {:induction false} LookupPut(bids: seq<Bid>, m: MerchantId, amount: Money, x: MerchantId)
    ensures Lookup(Put(bids, m, amount), x) == if x == m then Some(amount) else Lookup(bids, x)
  {
    if bids != [] && bids[0].merchant != m {
      LookupPut(bids[1..], m, amount, x);
      assert Put(bids, m, amount)[1..] == Put(bids[1..], m, amount);
    }
  }

  /** The dictionary keeps one entry per merchant across updates. */
  lemma {:induction false} PutKeepsDistinct(bids: seq<Bid>, m: MerchantId, amount: Money)
    requires DistinctMerchants(bids)
    ensures DistinctMerchants(Put(bids, m, amount))
  {
    if bids != [] {
      var r := Put(bids, m, amount);
      if bids[0].merchant == m {
        assert r[1..] == bids[1..];
      } else {
        PutKeepsDistinct(bids[1..], m, amount);
        LookupPut(bids[1..], m, amount, bids[0].merchant);
        assert r[1..] == Put(bids[1..], m, amount);
      }
    }
  }

  /** Insertion order: a new merchant is appended at the end; an update rewrites
      only that merchant's entry, in its original position. */
  lemma {:induction false} PutKeepsOrder(bids: seq<Bid>, m: MerchantId, amount: Money)
    requires DistinctMerchants(bids)
    ensures Lookup(bids, m).None? ==> Put(bids, m, amount) == bids + [Bid(m, amount)]
    ensures Lookup(bids, m).Some? ==>
      |Put(bids, m, amount)| == |bids| &&
      forall i :: 0 <= i < |bids| ==>
        Put(bids, m, amount)[i] == if bids[i].merchant == m then Bid(m, amount) else bids[i]
  {
    if bids != [] {
      var r := Put(bids, m, amount);
      if bids[0].merchant == m {
        LookupAbsent(bids[1..], m);
        forall i | 0 <= i < |bids|
          ensures r[i] == if bids[i].merchant == m then Bid(m, amount) else bids[i]
        {
          if i > 0 { assert bids[i] == bids[1..][i - 1]; }
        }
      } else {
        PutKeepsOrder(bids[1..], m, amount);
        assert r == [bids[0]] + Put(bids[1..], m, amount);
        if Lookup(bids, m).Some? {
          forall i | 0 <= i < |bids|
            ensures r[i] == if bids[i].merchant == m then Bid(m, amount) else bids[i]
          {
            if i > 0 { assert bids[i] == bids[1..][i - 1]; }
          }
        }
      }
    }
  }

  /** Whether `add_bid` accepts `amount` from merchant `m`: the offer is active, the
      window has not closed, and m has no bid yet or `amount` strictly beats it. Only
      an open offer accepts anything, and it accepts every first bid of a merchant. */
  predicate AcceptsBid(status: Status, endTime: Time, bids: seq<Bid>, m: MerchantId, amount: Money, now: Time)
    ensures AcceptsBid(status, endTime, bids, m, amount, now) ==> status == Active && now <= endTime
    ensures status == Active && now <= endTime && (forall i :: 0 <= i < |bids| ==> bids[i].merchant != m) ==>
      AcceptsBid(status, endTime, bids, m, amount, now)
  {
    LookupAbsent(bids, m);
    status == Active && now <= endTime &&
    match Lookup(bids, m)
    case None => true
    case Some(prior) => prior < amount
  }

  /** The bid list after an attempt to bid: rewritten only when the bid is accepted.
      It never shrinks and stays a dictionary (one entry per merchant). */
  function AfterBid(status: Status, endTime: Time, bids: seq<Bid>, m: MerchantId, amount: Money, now: Time): (r: seq<Bid>)
    ensures |bids| <= |r|
    ensures DistinctMerchants(bids) ==> DistinctMerchants(r)
  {
    if AcceptsBid(status, endTime, bids, m, amount, now) then
      assert DistinctMerchants(bids) ==> DistinctMerchants(Put(bids, m, amount)) by {
        if DistinctMerchants(bids) { PutKeepsDistinct(bids, m, amount); }
      }
      Put(bids, m, amount)
    else bids
  }

  /** A stored bid is only ever replaced by a strictly greater one, no merchant loses
      a bid, and the only bid that appears or changes is the bidder's. */
  lemma BidsOnlyImprove(status: Status, endTime: Time, bids: seq<Bid>, m: MerchantId, amount: Money, now: Time, x: MerchantId)
    ensures var after := AfterBid(status, endTime, bids, m, amount, now);
      && (Lookup(bids, x).Some? ==> Lookup(after, x).Some? && Lookup(bids, x).value <= Lookup(after, x).value)
      && (Lookup(after, x) != Lookup(bids, x) ==>
            x == m && Lookup(after, x) == Some(amount) &&
            (Lookup(bids, x).Some? ==> Lookup(bids, x).value < amount))
  {
    LookupPut(bids, m, amount, x);
  }

  /** Position of the entry `max(bids.items(), key=amount)` returns: the scan keeps
      the first entry and replaces it only by a strictly greater one, so it is the
      earliest-inserted among the maximal amounts. */
  function FirstMaxIndex(bids: seq<Bid>): (k: nat)
    requires bids != []
    ensures k < |bids|
    ensures forall j :: 0 <= j < |bids| ==> bids[j].amount <= bids[k].amount
    ensures forall j :: 0 <= j < k ==> bids[j].amount < bids[k].amount
  {
    if |bids| == 1 then 0
    else
      var k := FirstMaxIndex(bids[..|bids| - 1]);
      if bids[k].amount < bids[|bids| - 1].amount then |bids| - 1 else k
  }

  /** `get_highest_bid`: `(None, 0)` without bids, otherwise the winning
      (merchant, amount) entry. */
  function HighestBid(bids: seq<Bid>): (r: (Option<MerchantId>, Money))
    ensures r.0.None? <==> bids == []
    ensures bids == [] ==> r.1 == 0
    ensures r.0.Some? ==> Bid(r.0.value, r.1) in bids
    ensures forall j :: 0 <= j < |bids| ==> bids[j].amount <= r.1
  {
    if bids == [] then (None, 0)
    else
      var k := FirstMaxIndex(bids);
      (Some(bids[k].merchant), bids[k].amount)
  }

  /** Ties go to the earliest entry: whichever entry holds a maximal amount with
      only smaller amounts before it is the one `HighestBid` returns. */
  lemma HighestBidIsFirstMaximum(bids: seq<Bid>, k: nat)
    requires k < |bids|
    requires forall j :: 0 <= j < |bids| ==> bids[j].amount <= bids[k].amount
    requires forall j :: 0 <= j < k ==> bids[j].amount < bids[k].amount
    ensures HighestBid(bids) == (Some(bids[k].merchant), bids[k].amount)
  {
    var i := FirstMaxIndex(bids);
    assert !(i < k) && !(k < i);
  }

  /** An accepted update never lowers any position of the list: a new merchant is
      appended, and an improved bid replaces a smaller one. */
  lemma {:induction false} PutNeverLowers(bids: seq<Bid>, m: MerchantId, amount: Money)
    requires Lookup(bids, m).None? || Lookup(bids, m).value < amount
    ensures |bids| <= |Put(bids, m, amount)|
    ensures forall i :: 0 <= i < |bids| ==> bids[i].amount <= Put(bids, m, amount)[i].amount
  {
    if bids != [] && bids[0].merchant != m {
      PutNeverLowers(bids[1..], m, amount);
      var r := Put(bids, m, amount);
      forall i | 0 <= i < |bids| ensures bids[i].amount <= r[i].amount {
        if i > 0 {
          assert bids[i] == bids[1..][i - 1];
          assert r[i] == Put(bids[1..], m, amount)[i - 1];
        }
      }
    }
  }

  /** Once there is a bid, an attempt to bid never lowers the highest bid. (Without
      bids the reported amount is the placeholder 0, which a first, negative bid
      undercuts.) */
  lemma HighestBidNeverDrops(status: Status, endTime: Time, bids: seq<Bid>, m: MerchantId, amount: Money, now: Time)
    requires bids != []
    ensures HighestBid(bids).1 <= HighestBid(AfterBid(status, endTime, bids, m, amount, now)).1
  {
    if AcceptsBid(status, endTime, bids, m, amount, now) {
      PutNeverLowers(bids, m, amount);
      var k := FirstMaxIndex(bids);
      assert Put(bids, m, amount)[k].amount <= HighestBid(Put(bids, m, amount)).1;
    }
  }

  /** What the rest of the system observes of an offer. */
  datatype OfferView = OfferView(
    itemId: ItemId, quantity: int, endTime: Time,
    bids: seq<Bid>, status: Status, winner: Option<MerchantId>, winningBid: Money)

  /** A freshly created offer: active, without bids, without a winner. Until its end
      time it accepts a first bid of any amount from any merchant, and it reports no
      highest bidder. */
  function NewOffer(itemId: ItemId, quantity: int, endTime: Time): (o: OfferView)
    ensures o.itemId == itemId && o.quantity == quantity && o.endTime == endTime
    ensures HighestBid(o.bids) == (None, 0) && DistinctMerchants(o.bids)
    ensures forall m, amount, now :: now <= endTime ==>
      AcceptsBid(o.status, o.endTime, o.bids, m, amount, now)
  {
    OfferView(itemId, quantity, endTime, [], Active, None, 0)
  }

  /** One offer. Its id, item, reserved quantity and end time never change. */
  class Offer {
    const offerId: OfferId
    const itemId: ItemId
    const quantity: int
    const endTime: Time
    var bids: seq<Bid>
    var status: Status
    var winner: Option<MerchantId>
    var winningBid: Money

    ghost function View(): OfferView
      reads this
    {
      OfferView(itemId, quantity, endTime, bids, status, winner, winningBid)
    }

    constructor (offerId: OfferId, itemId: ItemId, quantity: int, endTime: Time)
      ensures this.offerId == offerId
      ensures View() == NewOffer(itemId, quantity, endTime)
    {
      this.offerId := offerId;
      this.itemId := itemId;
      this.quantity := quantity;
      this.endTime := endTime;
      bids := [];
      status := Active;
      winner := None;
      winningBid := 0;
    }

    /** Records the winner of a closed offer (the first branch of `complete_bid`). */
    method Award(winner: Option<MerchantId>, winningBid: Money)
      modifies this`status, this`winner, this`winningBid
      ensures View() == old(View()).(status := Completed, winner := winner, winningBid := winningBid)
    {
      status := Completed;
      this.winner := winner;
      this.winningBid := winningBid;
    }

    /** `add_bid` at time `now`: refused when the offer is not active, when the window
        has closed, or when the merchant's earlier bid is at least `amount`. */
    method AddBid(merchant: MerchantId, amount: Money, now: Time) returns (accepted: bool)
      modifies this`bids
      ensures DistinctMerchants(old(bids)) ==> DistinctMerchants(bids)
      ensures status != Active || now > endTime ==> !accepted
      ensures Lookup(old(bids), merchant).Some? && amount <= Lookup(old(bids), merchant).value ==> !accepted
      ensures accepted <==> AcceptsBid(status, endTime, old(bids), merchant, amount, now)
      ensures bids == AfterBid(status, endTime, old(bids), merchant, amount, now)
    {
      if status != Active {
        return false;
      }
      if now > endTime {
        return false;
      }
      var prior := Lookup(bids, merchant);
      if prior.Some? && prior.value >= amount {
        return false;
      }
      if DistinctMerchants(bids) {
        PutKeepsDistinct(bids, merchant, amount);
      }
      bids := Put(bids, merchant, amount);
      return true;
    }
  }
}
