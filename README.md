# Hypixel auction flip detector — a verified model of its pricing core

The bot polls the SkyBlock auction feed. On every sixth sweep that sees a new
feed update it samples prices. For each page it groups the buy-it-now listings
that have not ended by canonical item key, and appends the page's lowest unit
price to that key's history. It then sets each key's floor price to the lower
median of the five smallest samples; the recombobulator's floor is first seeded
from the bazaar. Every sweep keeps the listings that started after the previous
update and end inside the configured window. The flip check reports the kept
listings whose effective price (the larger of starting bid and highest bid) is
more than the minimum profit below their key's floor.

The model is written in Dafny and follows `AuctionGrabber` in bot.py and the
`ENCHANTS` table in constants.py:

- `util.dfy` (module `Util`): stable filter, `min`, `sorted` as insertion
  into a sorted list, and rank counts.
- `enchants.dfy` (module `Enchants`): the enchantment threshold table.
- `items.dfy` (module `ItemNames`): the decoded item and `get_name`.
- `uuid.dfy` (module `Uuid`): `format_uuid` and its inverse.
- `sweep.dfy` (module `Sweep`): the value-level rules of a sweep as functions,
  with lemmas about them.
- `grabber.dfy` (module `Grabber`): class `AuctionGrabber`. Its fields are
  `minPrice`, `prices`, `auctions`, `runCounter` and `lastUpdate`. Its methods
  follow the source's methods, loops included, and are proved equal to the
  functions of `Sweep`. `GetPage`, `GetPages`, `ReceiveAuctions` and
  `CheckFlip` are the source's methods. `GroupPage`, `AppendPageMinima`,
  `GatherPages`, `RefreshFloors` and `RecordUpdate` are loops or steps taken
  out of `get_page`, `get_pages` and `receive_auctions`.

The class invariant `Consistent` holds between sweeps. It says the counter
stays in 0..5 and every history is non-empty. Every key with a history has its
lower median as its floor. Every other stored floor is 0, except the
recombobulator's; those zeros are the ones the flip check's defaulting reads
store.

The network, the clock and NBT decoding become parameters:

- `pages[i]` is the listing list that page `i` returned.
- `now` is the clock in seconds.
- `bazaar` is the recombobulator's sell price.
- A `Listing` carries its item already decoded.

The model follows bot.py as written. It has no per-page failure tolerance, no
modifier-based valuation and no de-duplication of reported listings, because
the code has none of these.

## Model

| member | source | states |
|---|---|---|
| ItemNames.CanonicalName | bot.py:111-127 | ids other than ENCHANTED_BOOK and PET are kept unchanged; a book without a single qualifying enchantment keeps the book key; a pet's key ends in `_PET` |
| ItemNames.PetTier | bot.py:123-125 | the tier changes exactly when it is EPIC and the held item is the tier boost, and then becomes LEGENDARY |
| ItemNames.BookKey | bot.py:113-120 | a book gets a key other than ENCHANTED_BOOK exactly when it holds one enchantment that is in the table at or above its minimum level; that key is the enchantment's name in upper case and has no lower-case letter |
| ItemNames.PetKey | bot.py:121-126 | a pet's key is tier + `_` + type + `_PET`; EPIC with the tier boost gives LEGENDARY, and every other tier/held-item combination keeps the tier |
| Enchants.TableSize | constants.py:1-28 | the table has 26 distinct entries |
| Enchants.KeysAreIds | constants.py:2-27 | every entry name is non-empty and made of lower-case letters and underscores |
| Enchants.LevelsInRange | constants.py:2-27 | every minimum level lies in 1..6 |
| Enchants.UltimateThresholds | constants.py:4-5 | ultimate_combo and ultimate_wise qualify from level 1 |
| Enchants.MiddleThresholds | constants.py:2-13 | impaling needs 3; looting, scavenger, experience and life_steal need 4; execute needs 5 |
| Enchants.TopThresholds | constants.py:15-20 | sharpness, power, protection, smite and bane_of_arthropods need 6 |
| Enchants.OnlyUltimatesFromLevelOne | constants.py:2-27 | only the two ultimate enchantments have minimum 1; every other entry needs 3 or more |
| Uuid.FormatUuid | bot.py:108-109 | the result has the input's length, capped at 32, plus four dashes |
| Uuid.FormatGroups | bot.py:108-109 | for 32 characters the result is the 8-4-4-4-12 groups joined by dashes |
| Uuid.FormatShape | bot.py:108-109 | a 32-character id gives 36 characters with dashes at 8, 13, 18 and 23; removing those four positions gives the id back |
| Uuid.FormatInjective | bot.py:108-109 | distinct 32-character ids have distinct dashed forms |
| Uuid.RemoveDashesRoundTrip | bot.py:108-109 | deleting every dash from the formatted form of a dash-free 32-character id gives the id back |
| Sweep.PagePricesKeys | bot.py:69-82 | a page groups a key exactly when one of its sampled listings (bin true, not ended) has that key |
| Sweep.PagePricesRecorded | bot.py:70-82 | every sampled listing's unit price (starting bid / count) is in its key's group |
| Sweep.PagePricesSources | bot.py:70-82 | every value in a key's group is the unit price of a sampled listing with that key |
| Sweep.PageFloor | bot.py:83-84 | the value a page appends for a key is the lowest unit price among its sampled listings with that key, and is attained by one of them |
| Sweep.AppendMinimaSpec | bot.py:83-84 | a key has a history afterwards exactly when it had one or the page grouped it; its history gains the page minimum exactly when grouped, and nothing else changes |
| Sweep.SweepHistoryGrows | bot.py:44-84 | over a sampling sweep each history only grows by appending, by exactly one sample per page observing the key |
| Sweep.SweepHistoryMinima | bot.py:44-84 | a sampling sweep appends to each key's history exactly the page minima of that key, page by page |
| Sweep.PageOrderIrrelevant | bot.py:44-53 | pages processed in any order give each key the same multiset of samples, the same presence of a history and the same floor |
| Sweep.LowerMedianIndex | bot.py:53 | the index expression `n // 2 - (0 if n odd else 1)` equals (n - 1) / 2 |
| Sweep.LowerMedianAt | bot.py:52-53 | the floor is the element at index (m - 1) / 2 of the sorted samples, where m is the sample count capped at 5 |
| Sweep.LowerMedianIsSample | bot.py:51-53 | the floor is one of the samples and is not below the smallest |
| Sweep.LowerMedianRank | bot.py:52-53 | at most (m - 1) / 2 samples lie below the floor and more than that lie at or below it; with five or more samples it is the third smallest |
| Sweep.LowerMedianPermutation | bot.py:44-53 | the floor depends only on the multiset of samples, not on the order pages appended them |
| Sweep.RefreshSpec | bot.py:47-53 | after a refresh, the keyed floors are the old ones plus the recombobulator and every key with a history; keys with a history get their lower median, which overrides the bazaar seed; the recombobulator otherwise gets the bazaar price; other floors are kept |
| Sweep.RefreshFromSamples | bot.py:51-53 | after a refresh every key with a history has a floor that is one of its samples and is at least its minimum |
| Sweep.KeptOnPageMembers | bot.py:85-87 | a page keeps exactly its listings with start after the last update and end strictly between now + 30 s and now + min-time |
| Sweep.KeptAllMembers | bot.py:44-45 | a sweep keeps exactly the listings of its pages that lie in that window |
| Sweep.EffectivePrice | bot.py:92-93 | the price compared is the larger of starting bid and highest bid |
| Sweep.FlipsMembers | bot.py:89-99 | a listing is reported exactly when it is a stored auction whose effective price is below its key's floor minus the minimum profit |
| Sweep.DefaultReadSpec | bot.py:96 | a defaulting floor lookup leaves the key present, reads the old floor or 0, and adds or changes no other key |
| Sweep.WithDefaultsSpec | bot.py:96 | the flip scan adds a 0 floor for exactly the unseen keys it reads and changes no floor's value |
| Sweep.RefreshKeepsInvariant | bot.py:46-53 | a refresh makes every key with a history carry its lower median and keeps the other non-recombobulator floors at 0 |
| Sweep.SweepKeepsZeros | bot.py:68-84 | sampling only adds histories, so a key without a history after the sweep had none before and its 0 floor stays valid |
| Sweep.DefaultsKeepInvariant | bot.py:96 | the defaulting reads of the flip scan keep both the median floors and the 0 floors of unsampled keys |
| Sweep.UnobservedNeverFlips | bot.py:92-97 | with a non-negative profit margin, a listing whose key reads floor 0 (no floor stored, or the stored default) and whose starting bid is not negative is never a flip |
| Sweep.NextCounter | bot.py:64 | the counter stays in 0..5 and steps as (c + 1) mod 6 |
| Sweep.CounterAfterMod | bot.py:64 | after s sweeps the counter is (c + s) mod 6 |
| Sweep.SamplingCadence | bot.py:40-64 | starting from 5, the sweep after s updated sweeps samples exactly when s is a multiple of 6 |
| Grabber.AuctionGrabber.constructor | bot.py:34-41 | empty floors, auctions and histories, counter 5, marker 0; the class invariant holds |
| Grabber.AuctionGrabber.GroupPage | bot.py:69-82 | the loop's grouped unit prices equal `PagePrices` of the page |
| Grabber.AuctionGrabber.AppendPageMinima | bot.py:83-84 | the loop's new histories equal `AppendMinima` of the old ones and the page groups |
| Grabber.AuctionGrabber.GetPage | bot.py:66-87 | on a sampling sweep the histories gain the page minima, otherwise they are unchanged; the returned listings are the page's listings in the window |
| Grabber.AuctionGrabber.GatherPages | bot.py:44-45 | the concatenated kept listings equal `KeptAll` of the pages; the histories equal `SweepHistory` on a sampling sweep and are unchanged otherwise |
| Grabber.AuctionGrabber.RefreshFloors | bot.py:47-53 | the loop's floor table equals `Refresh` of the old floors, the histories and the bazaar price, and restores the class invariant |
| Grabber.AuctionGrabber.GetPages | bot.py:43-54 | totalPages + 1 pages are processed; floors are refreshed exactly on a sampling sweep |
| Grabber.AuctionGrabber.ReceiveAuctions | bot.py:56-64 | an unchanged marker changes nothing; otherwise the stored auctions are the kept listings, the marker is recorded, the counter steps and, on a sampling sweep only, histories and floors are updated |
| Grabber.AuctionGrabber.RecordUpdate | bot.py:63-64 | the marker is recorded and the counter steps 5 to 0 and n to n + 1 |
| Grabber.AuctionGrabber.UnsampledNeverFlips | bot.py:89-99 | between sweeps, a listing whose key has never been sampled and is not the recombobulator reads floor 0, and with a non-negative margin and bid is never a flip |
| Grabber.AuctionGrabber.CheckFlip | bot.py:89-99 | the returned flips are `Flips` of the stored auctions against the floors before the scan; the floor table gains 0 entries for unseen keys read, and no floor changes value |

## Left out

- NBT, base64 and gzip decoding of the item payload (`decode_item`), and the
  JSON parsing of `petInfo`, are not modelled. A listing carries its decoded
  item and the parsed pet record.
- The `Item` subset type excludes three kinds of item on which the source
  can raise:
  - an enchanted book without an `enchantments` compound (bot.py:116);
  - a pet without `petInfo` (bot.py:122);
  - a stack count of zero. The source divides by the count only for the
    listings it samples on a sampling sweep (bot.py:82), so a zero count
    elsewhere would not raise. The model does not represent such listings at
    all. Negative counts are kept.
- The enchantments are an optional ordered sequence rather than a map. It is
  absent when the book has no `enchantments` compound, and ordered because the
  source takes `keys()[0]` of the stored compound.
- `str.upper` is modelled on ASCII letters only. The table's keys are
  lower-case ASCII, as `Enchants.KeysAreIds` shows.
- The HTTP session, the concurrent page fetches and the bazaar request are
  parameters: a sequence of pages and a bazaar price. Whatever the feed
  returns for the extra page `totalPages` is part of that input.
- Grabber.AuctionGrabber.GatherPages: processes pages in index order, whereas
  the source appends page minima in the order the fetches complete. Any order
  gives each key the same multiset of samples and the same floor, as
  `Sweep.PageOrderIrrelevant` shows; only the order inside a history differs.
- `time.time()` is a single `now` per sweep. The source reads the clock
  afresh at each comparison.
- Unit prices come from Python float division. They are modelled as exact
  `real`, and only compared, minimised and sorted.
- The Discord bot, the price command and the wiki lookup are not modelled;
  they are user interface.
- Configuration loading, the MySQL connection, the token test, `alias.json`
  and the unused `songs` table are not modelled either; they are outside the
  pricing core.
- The endpoint URL templates in constants.py are not modelled.
