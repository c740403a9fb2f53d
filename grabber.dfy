/** `AuctionGrabber` of bot.py: the state the bot keeps between sweeps of the
    auction feed and the methods that update it. Network fetches, the clock and
    the bazaar lookup are parameters: `pages[i]` is the listing list page `i`
    returned, `now` the clock in seconds, `bazaar` the recombobulator's
    sell-order price. */
module Grabber {
  import opened Util
  import opened ItemNames
  import opened Sweep

  class AuctionGrabber {
    /** `options.min-time` of the configuration, in seconds. */
    const minTime: real
    /** `options.min-profit` of the configuration. */
    const minProfit: real

    /** Floor price per key; a key that is absent reads as 0. */
    var minPrice: map<string, real>
    /** The listings kept by the last sweep, checked for flips. */
    var auctions: seq<Listing>
    /** Sampled unit-price history per key. */
    var prices: History
    /** Sweeps with a new feed update, counted modulo 6; 5 means "sample now". */
    var runCounter: int
    /** The feed's `lastUpdated` marker seen by the last sweep. */
    var lastUpdate: int

    ghost predicate Valid()
      reads this
    {
      0 <= runCounter <= 5 && NonEmptyHistories(prices)
    }

    /** Between sweeps every key with a history has its floor set to the lower
        median of that history (histories only grow in sampling sweeps, and
        those end by recomputing every floor), and every other stored floor
        except the recombobulator's is the 0 a defaulting read stored. */
    ghost predicate Consistent()
      reads this
    {
      && Valid()
      && FloorsAreMedians(minPrice, prices)
      && UnsampledAtZero(minPrice, prices)
    }

    constructor (minTime: real, minProfit: real)
      ensures Consistent()
      ensures this.minTime == minTime && this.minProfit == minProfit
      ensures minPrice == map[] && auctions == [] && prices == map[]
      ensures runCounter == 5 && lastUpdate == 0
    {
      this.minTime := minTime;
      this.minProfit := minProfit;
      minPrice := map[];
      auctions := [];
      prices := map[];
      runCounter := 5;
      lastUpdate := 0;
    }

    /** Groups the unit prices of a page's sampled listings by key, skipping
        listings that are not buy-it-now or have already ended. */
    method GroupPage(page: seq<Listing>, now: real) returns (pagePrices: History)
      ensures pagePrices == PagePrices(page, now)
    {
      pagePrices := map[];
      var i := 0;
      while i < |page|
        invariant 0 <= i <= |page|
        invariant pagePrices == PagePrices(page[..i], now)
      {
        var auction := page[i];
        var skip := auction.bin.None? || auction.bin == Some(false) || auction.end as real < now * 1000.0;
        assert skip <==> !Sampled(auction, now) by {
          if auction.bin.Some? {
            if auction.bin.value {
              assert auction.bin == Some(true);
            } else {
              assert auction.bin == Some(false);
            }
          }
        }
        assert page[..i + 1] == page[..i] + [auction];
        PagePricesSnoc(page[..i], auction, now);
        if !skip {
          var name := CanonicalName(auction.item);
          pagePrices := pagePrices[name := HistoryOf(pagePrices, name) + [UnitPrice(auction)]];
        }
        i := i + 1;
      }
      assert page[..|page|] == page;
    }

    /** Appends the minimum of each group to that key's history. */
    method AppendPageMinima(pagePrices: History)
      requires Valid() && NonEmptyHistories(pagePrices)
      modifies this`prices
      ensures Valid()
      ensures prices == AppendMinima(old(prices), pagePrices)
    {
      var h := prices;
      var acc := prices;
      var keys := pagePrices.Keys;
      while keys != {}
        invariant keys <= pagePrices.Keys
        invariant forall k :: k in acc <==> k in h || (k in pagePrices && k !in keys)
        invariant forall k :: HistoryOf(acc, k)
                               == HistoryOf(h, k) + (if k in pagePrices && k !in keys then [Min(pagePrices[k])] else [])
        decreases keys
      {
        var k :| k in keys;
        acc := acc[k := HistoryOf(acc, k) + [Min(pagePrices[k])]];
        keys := keys - {k};
      }
      AppendMinimaExt(acc, h, pagePrices);
      prices := acc;
    }

    /** Processes one fetched page: on a sampling sweep appends, for each key
        seen among the page's sampled listings, the page's lowest unit price to
        that key's history; returns the page's listings that lie in the window. */
    method GetPage(page: seq<Listing>, now: real) returns (kept: seq<Listing>)
      requires Valid()
      modifies this`prices
      ensures Valid()
      ensures prices == if runCounter == 5 then AppendMinima(old(prices), PagePrices(page, now)) else old(prices)
      ensures kept == KeptOnPage(page, lastUpdate, now, minTime)
    {
      if runCounter == 5 {
        var pagePrices := GroupPage(page, now);
        AppendPageMinima(pagePrices);
      }
      kept := KeptOnPage(page, lastUpdate, now, minTime);
    }

    /** Seeds the recombobulator's floor from the bazaar price, then sets the
        floor of every key with a history to the lower median of its five
        smallest samples. */
    method RefreshFloors(bazaar: real)
      requires Valid() && UnsampledAtZero(minPrice, prices)
      modifies this`minPrice
      ensures Consistent()
      ensures minPrice == Refresh(old(minPrice), prices, bazaar)
    {
      var h := prices;
      var seeded := minPrice[RECOMBOBULATOR := bazaar];
      var floors := seeded;
      var keys := h.Keys;
      while keys != {}
        invariant keys <= h.Keys
        invariant forall k :: k in floors <==> k in seeded || (k in h && k !in keys)
        invariant forall k :: k in floors ==>
                    floors[k] == if k in h && k !in keys then LowerMedian(h[k]) else seeded[k]
        decreases keys
      {
        var item :| item in keys;
        floors := floors[item := LowerMedian(h[item])];
        keys := keys - {item};
      }
      RefreshExt(floors, minPrice, h, bazaar);
      RefreshKeepsInvariant(minPrice, h, bazaar);
      minPrice := floors;
    }

    /** Processes the fetched pages in order and concatenates their kept
        listings (the gather of all page tasks). */
    method GatherPages(pages: seq<seq<Listing>>, now: real) returns (auc: seq<Listing>)
      requires Valid()
      modifies this`prices
      ensures Valid()
      ensures auc == KeptAll(pages, lastUpdate, now, minTime)
      ensures prices == if runCounter == 5 then SweepHistory(old(prices), pages, now) else old(prices)
    {
      auc := [];
      ghost var h := prices;
      ghost var sampling := runCounter == 5;
      var i := 0;
      while i < |pages|
        invariant 0 <= i <= |pages|
        invariant Valid()
        invariant auc == KeptAll(pages[..i], lastUpdate, now, minTime)
        invariant sampling ==> prices == SweepHistory(h, pages[..i], now)
        invariant !sampling ==> prices == h
      {
        var kept := GetPage(pages[i], now);
        GatherStep(h, pages, i, lastUpdate, now, minTime);
        auc := auc + kept;
        i := i + 1;
      }
      assert pages[..|pages|] == pages;
    }

    /** Fetches pages 0 through `totalPages` (`totalPages + 1` pages) and
        returns their kept listings in page order; on a sampling sweep then
        refreshes the floors. */
    method GetPages(totalPages: nat, pages: seq<seq<Listing>>, now: real, bazaar: real) returns (auc: seq<Listing>)
      requires Consistent() && |pages| == totalPages + 1
      modifies this`prices, this`minPrice
      ensures Consistent()
      ensures auc == KeptAll(pages, lastUpdate, now, minTime)
      ensures prices == if runCounter == 5 then SweepHistory(old(prices), pages, now) else old(prices)
      ensures minPrice == if runCounter == 5 then Refresh(old(minPrice), prices, bazaar) else old(minPrice)
    {
      auc := GatherPages(pages, now);
      if runCounter == 5 {
        SweepKeepsZeros(minPrice, old(prices), pages, now);
        RefreshFloors(bazaar);
      }
    }

    /** One poll of the feed. An unchanged `lastUpdated` marker ends the sweep
        with no change; otherwise the kept listings replace `auctions`, the
        marker is recorded and the counter steps (5 wraps to 0). */
    method ReceiveAuctions(lastUpdated: int, totalPages: nat, pages: seq<seq<Listing>>, now: real, bazaar: real)
      requires Consistent() && |pages| == totalPages + 1
      modifies this
      ensures Consistent()
      ensures lastUpdated == old(lastUpdate) ==> unchanged(this)
      ensures lastUpdated != old(lastUpdate) ==>
                && auctions == KeptAll(pages, old(lastUpdate), now, minTime)
                && lastUpdate == lastUpdated
                && runCounter == NextCounter(old(runCounter))
                && prices == (if old(runCounter) == 5 then SweepHistory(old(prices), pages, now) else old(prices))
                && minPrice == (if old(runCounter) == 5 then Refresh(old(minPrice), prices, bazaar) else old(minPrice))
    {
      if lastUpdated == lastUpdate {
        return;
      }
      auctions := GetPages(totalPages, pages, now, bazaar);
      RecordUpdate(lastUpdated);
    }

    /** The end of a sweep that saw a new update: the marker is recorded and
        the counter steps (5 wraps to 0). */
    method RecordUpdate(lastUpdated: int)
      requires Consistent()
      modifies this`lastUpdate, this`runCounter
      ensures Consistent()
      ensures lastUpdate == lastUpdated && runCounter == NextCounter(old(runCounter))
    {
      lastUpdate := lastUpdated;
      runCounter := if runCounter == 5 then 0 else runCounter + 1;
    }

    /** Between sweeps, a listing whose key was never sampled and is not the
        recombobulator has floor 0, so with a non-negative profit margin and
        a non-negative starting bid it is never a flip. */
    lemma UnsampledNeverFlips(l: Listing)
      requires Consistent()
      requires KeyOf(l) !in prices && KeyOf(l) != RECOMBOBULATOR
      requires minProfit >= 0.0 && l.startingBid >= 0
      ensures PriceOf(minPrice, KeyOf(l)) == 0.0
      ensures !IsFlip(l, minPrice, minProfit)
    {
      UnobservedNeverFlips(l, minPrice, minProfit);
    }

    /** The stored auctions that are flips, in order. Reading the floor of an
        unseen key stores a 0 floor for it, which changes no floor's value. */
    method CheckFlip() returns (flips: seq<Listing>)
      requires Consistent()
      modifies this`minPrice
      ensures Consistent()
      ensures flips == Flips(auctions, old(minPrice), minProfit)
      ensures minPrice == WithDefaults(old(minPrice), auctions)
    {
      var listings := auctions;
      var before := minPrice;
      var floors := minPrice;
      flips := [];
      var i := 0;
      while i < |listings|
        invariant 0 <= i <= |listings|
        invariant flips == Flips(listings[..i], before, minProfit)
        invariant ReadThrough(floors, before, listings[..i])
      {
        var item := listings[i];
        var price := if item.startingBid > item.highestBid then item.startingBid else item.highestBid;
        var name := CanonicalName(item.item);
        ScanStep(listings, i, floors, before, minProfit);
        floors := DefaultRead(floors, name);
        if (price as real) < floors[name] - minProfit {
          flips := flips + [item];
        }
        i := i + 1;
      }
      assert listings[..|listings|] == listings;
      WithDefaultsExt(floors, before, listings);
      DefaultsKeepInvariant(before, prices, listings);
      minPrice := floors;
    }
  }
}
