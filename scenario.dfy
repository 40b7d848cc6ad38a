/** The run at the end of mian.py (lines 273-354), replayed on the model with the clock
    as explicit times: the first offer is created at time 0 and closes at 5, the
    second is created at 6 and closes at 8. Prices and bids are in cents. The run is
    cut in three stages, each ending in the state the next one starts from. */
module Scenario {
  import opened Wrappers
  import opened Ledger
  import opened Bidding
  import opened OfferIds
  import opened Market

  const Alpha: MerchantId := "Merchant-Alpha"
  const Beta: MerchantId := "Merchant-Beta"
  const Gamma: MerchantId := "Merchant-Gamma"

  /** After the manual adjustment of TS-A and the one-off sale of TS-B. */
  function AfterSales(): Snapshot
  {
    Snapshot(map["TS-A" := ItemView(45, 2000), "TS-B" := ItemView(18, 2500), "SH-C" := ItemView(65, 2500)],
             map[], 1)
  }

  /** The bids on OFFER-1 once Alpha has raised its bid: Alpha keeps its first place. */
  function FinalBids(): seq<Bid>
  {
    [Bid(Alpha, 51000), Bid(Beta, 50000)]
  }

  /** After OFFER-1 has reserved 20 units of TS-A. */
  function AfterOffer(): Snapshot
  {
    Snapshot(map["TS-A" := ItemView(25, 2000), "TS-B" := ItemView(18, 2500), "SH-C" := ItemView(65, 2500)],
             map["OFFER-1" := NewOffer("TS-A", 20, 5)], 2)
  }

  /** After the three bids on OFFER-1. */
  function AfterBids(): Snapshot
  {
    AfterOffer().(offers := map["OFFER-1" := NewOffer("TS-A", 20, 5).(bids := FinalBids())])
  }

  /** After OFFER-1 has been sold to Alpha. */
  function AfterAuction(): Snapshot
  {
    AfterOffer().(offers := map["OFFER-1" := OfferView("TS-A", 20, 5, FinalBids(), Completed, Some(Alpha), 51000)])
  }

  /** Test 2 and Test 6: 5 damaged units leave 45; removing 1000 is refused; selling 2
      units of TS-B costs $50.00 and leaves 18; selling 100 is refused. */
  lemma SalesStage()
    ensures var s1 := UpdateStock(Initial(), "TS-A", -5);
      && s1.items["TS-A"].stock == 45
      && UpdateStock(s1, "TS-A", -1000) == s1
      && OneOffOrder(s1, "TS-B", 2) == (AfterSales(), Some(5000))
      && OneOffOrder(AfterSales(), "TS-B", 100) == (AfterSales(), None)
  {
    var s1 := UpdateStock(Initial(), "TS-A", -5);
    assert OneOffOrder(s1, "TS-B", 2).0.items == AfterSales().items;
  }

  /** Test 3: OFFER-1 reserves 20 units of TS-A (25 left); an offer of 1000 is refused. */
  lemma OfferStage()
    ensures CreateOffer(AfterSales(), "TS-A", 20, 5) == (AfterOffer(), Some("OFFER-1"))
    ensures CreateOffer(AfterOffer(), "TS-A", 1000, 5) == (AfterOffer(), None)
  {
    assert OfferIdFor(1) == "OFFER-1";
    assert CreateOffer(AfterSales(), "TS-A", 20, 5).0.items == AfterOffer().items;
  }

  /** Test 4: Alpha bids $450.00, Beta $500.00, then Alpha raises to $510.00; the raise
      rewrites Alpha's entry where it stands. */
  lemma BiddingStage()
    ensures TrackBid(TrackBid(TrackBid(AfterOffer(), "OFFER-1", Alpha, 45000, 1), "OFFER-1", Beta, 50000, 2),
                     "OFFER-1", Alpha, 51000, 3) == AfterBids()
  {
    assert Alpha != Beta by {
      assert Alpha[9] != Beta[9];
    }
    var first := [Bid(Alpha, 45000)];
    assert Lookup(first, Beta) == None;
    assert Put(first, Beta, 50000) == [Bid(Alpha, 45000), Bid(Beta, 50000)];
    var s4 := TrackBid(AfterOffer(), "OFFER-1", Alpha, 45000, 1);
    assert s4.offers["OFFER-1"].bids == first;
    var s5 := TrackBid(s4, "OFFER-1", Beta, 50000, 2);
    assert s5.offers["OFFER-1"].bids == [Bid(Alpha, 45000), Bid(Beta, 50000)];
    var s6 := TrackBid(s5, "OFFER-1", Alpha, 51000, 3);
    assert s6.offers["OFFER-1"].bids == FinalBids();
    assert s6.offers == AfterBids().offers;
  }

  /** Test 5: completing while the window is open is a no-op, a late bid is refused, and
      completing after the window records Alpha at $510.00 with TS-A left at 25. */
  lemma ClosingStage()
    ensures CompleteBid(AfterBids(), "OFFER-1", 3) == AfterBids()
    ensures TrackBid(AfterBids(), "OFFER-1", Gamma, 52000, 6) == AfterBids()
    ensures CompleteBid(AfterBids(), "OFFER-1", 6) == AfterAuction()
  {
    assert HighestBid(FinalBids()) == (Some(Alpha), 51000);
  }

  /** Test 5b: OFFER-2 reserves 5 units of TS-B (13 left) and, completed with no bids,
      gives them back (18 again). */
  lemma NoBidStage()
    ensures var (s8, second) := CreateOffer(AfterAuction(), "TS-B", 5, 8);
      && second == Some("OFFER-2") && s8.items["TS-B"].stock == 13
      && var s9 := CompleteBid(s8, "OFFER-2", 9);
      && s9.offers["OFFER-2"].status == Completed && s9.offers["OFFER-2"].winner == None
      && s9.items["TS-B"].stock == 18
  {
    assert OfferIdFor(2) == "OFFER-2";
    var (s8, second) := CreateOffer(AfterAuction(), "TS-B", 5, 8);
    assert HighestBid(s8.offers["OFFER-2"].bids) == (None, 0);
  }

  /** Nothing checks the quantity of an offer. An offer of -5 units adds 5 to the stock;
      once those are sold, completing the offer without bids tries to take 5 back, is
      refused (the branch the source logs as one that should never happen), and the
      offer is completed anyway with the stock at 0. */
  lemma NegativeOfferCreditBackRefused()
    ensures var (created, id) := CreateOffer(Initial(), "TS-A", -5, 5);
      && id == Some("OFFER-1") && created.items["TS-A"].stock == 55
      && var (sold, price) := OneOffOrder(created, "TS-A", 55);
      && price == Some(110000) && sold.items["TS-A"].stock == 0
      && UpdateStock(sold, "TS-A", -5) == sold
      && var done := CompleteBid(sold, "OFFER-1", 6);
      && done.items == sold.items && done.offers["OFFER-1"].status == Completed
  {
    assert OfferIdFor(1) == "OFFER-1";
  }
}
