# Polymarket markets dashboard and rewards monitor — a Dafny model

This project models the core of two small servers that watch Polymarket.

**The markets dashboard** (`markets_dashboard.py`) keeps a `MarketsMonitor`. The monitor holds:
- the market records;
- a cache of the previous generation of records;
- the set of slugs of markets in the rewards programme;
- two fetch flags, a progress record and an auto-refresh timer.

A refresh works like this:
- It runs two walks in parallel. One walks the Gamma listing API 100 events at a time; each listed market becomes a dashboard record or is dropped. The other walks up to 50 numbered rewards pages in a browser; a page script turns each page's `/event/` links into market slugs.
- When both walks are done, the two results are combined: each record's `has_rewards` flag is set from the slug set.
- The HTTP endpoints read the monitor: `/api/markets`, `/api/status` and `/api/refresh`.

**The first-generation rewards monitor** (`v1_rewards_scraper.py`) walks up to 100 rewards pages:
- A page script turns the links of each page into entries. An entry holds a full slug, a question cut at fixed words and then trimmed, and the link.
- The entries are gathered by condition id, first-seen order kept.
- A `RewardsMonitor` object holds the result. Its endpoints answer the data, the status and a busy/started refresh decision.

## How the model is built

- **Text.dfy** writes out over `seq<char>` the string operations the page scripts use:
  - `indexOf`;
  - the `/\/event\/([^?]+)/` capture, as the leftmost match position with a greedy run up to `?`;
  - `split('/')` followed by taking the last part;
  - `trim`, which removes the ECMAScript white-space and line-terminator characters.
- **Gamma.dfy** covers the Gamma listing:
  - the listing's data as datatypes;
  - how one listed market is normalised: price selection by outcome name, dropping placeholders, the volume/liquidity threshold, and the derived url and image;
  - the walk's specification, `GammaWalk`, as a recursive function over a page oracle.
- **RewardsSlugs.dfy** covers the rewards slug walk of the dashboard: the page script as a specification (`PageSlugs`) and as the loop it is (`ExtractSlugs`), plus the walk's specification `RewardsWalk`.
- **Dashboard.dfy** holds the `MarketsMonitor` class. Each step a thread takes is one method. The two walks, `FetchAllMarkets` and `FetchRewardsSlugs`, are `while` loops, each proved equal to its specification function. `CombineData` and the timer methods change the object's fields and state the whole new state. The endpoint replies are functions of the state.
- **V1Scraper.dfy** covers the v1 monitor:
  - the page script (`ExtractEntries` and `TruncateQuestion`, proved against `PageEntries` and `Question`);
  - the "add new markets" loop;
  - the 100-page walk specification `ScrapeWalk`;
  - the `RewardsMonitor` class, with `ScrapeAllPages` as a loop proved against `ScrapeWalk`.

**Environment as inputs.** Every upstream is a page oracle `seq<PageResult<T>>`. Entry `k` answers the k-th request with the page's items, or `Fail` for a timeout or malformed answer. Requests past the end of the oracle fail, so the Gamma walk terminates although the source loops with `while True`. The other environment inputs are:
- whether Playwright is installed;
- whether the browser starts and opens its page (`launch` and `new_page`);
- for the v1 monitor, whether `browser.close` succeeds after the walk;
- the timestamp, an opaque string.

**Number representations.**
- A price is an integer number of hundredths of a cent, the value `round(float(p) * 100, 2)` has.
- Volume and liquidity are integer cents, so the "at least 10" test is `>= 1000`.

**Exceptions.** An exception inside a Gamma page ends the walk and keeps the records appended before it. These are an outcome without a price (IndexError), or a price `float` rejects (ValueError, or TypeError for a `null`). This follows the `try` around the whole page.

**Where the code's behaviour may surprise.** The model follows the code in each case:
- The dashboard's `/api/refresh` always answers "started" (markets_dashboard.py:384). It only spawns the start thread when no flag is set.
- The timer is re-armed when a refresh starts (markets_dashboard.py:78), not when it finishes.
- The fetch flags are set inside the worker threads (markets_dashboard.py:100, 108). So two starts in quick succession both go ahead (`DoubleStart`). The model makes no claim that at most one cycle is in flight.
- `_combine_data` keeps the previous rewards set when the new one is empty. It does not keep the previous records: an empty listing walk empties `markets`.
- In the v1 page script, `market_slug` is the full slug after `/event/`, although the script also computes the last segment (v1_rewards_scraper.py:70-71, 112). The model keeps the full slug.

## Model

| member | source | states |
|---|---|---|
| Text.IndexOfMeaning | v1_rewards_scraper.py:92 | `indexOf` returns -1 exactly when the pattern does not occur, otherwise an occurrence with none before it |
| Text.EventPathMeaning | markets_dashboard.py:250-252 | the capture is None iff no position matches `/event/` followed by a non-`?`; otherwise it is the non-empty, `?`-free text after the leftmost match, ending at `?` or the end of the href |
| Text.SegmentStartMeaning | markets_dashboard.py:253-254 | the last part of `s[..n]` starts just after its last `/`, or at 0: nothing from there to `n` is a `/` |
| Text.LastSegmentMeaning | markets_dashboard.py:253-254 | the last part of `split('/')` is the longest `/`-free suffix: a suffix with no `/`, preceded by `/` when shorter than the input |
| Text.TrimMeaning | v1_rewards_scraper.py:95 | `trim` returns a slice that neither starts nor ends with JS white space, and everything cut off on either side is white space |
| Gamma.SelectUpToRaised | markets_dashboard.py:159-160 | after `n` outcomes the loop has raised iff one of them has a missing or unparsable price |
| Gamma.SelectUpToLast | markets_dashboard.py:159-164 | when the loop has not raised, its Yes (No) price is that of the last outcome so far named "Yes" ("No"), or None when there is none |
| Gamma.SelectUpToMeaning | markets_dashboard.py:158-164 | after `n` outcomes the loop has raised iff some outcome so far has no usable price; otherwise the Yes/No prices are those of the last outcome with that name |
| Gamma.PriceSelectionMeaning | markets_dashboard.py:155-164 | the selection raises iff both arrays have at least two entries and some outcome lacks a usable price; shorter arrays give no prices; otherwise the prices are those of the last "Yes"/"No" outcomes |
| Gamma.RaisedPersists | markets_dashboard.py:159-160 | once the outcome loop raises, the exception ends it |
| Gamma.SelectPrices | markets_dashboard.py:155-164 | the outcome loop computes `PriceSelection` |
| Gamma.NormalizeMarketMeaning | markets_dashboard.py:150-196 | a market makes the page raise iff its price loop raises; it is kept iff both a Yes and a No outcome are priced and both amounts are present and at least 10 dollars; a kept record has the threshold amounts, `has_rewards` False, the url `https://polymarket.com/event/{event_slug}/{market_slug}`, the image with the event fallback, and the last Yes/No prices |
| Gamma.NormalizeMarketsBuilt | markets_dashboard.py:150-196 | every record from an event's markets was built from one of them |
| Gamma.NormalizeEventsBuilt | markets_dashboard.py:145-196 | every record of a page was built from a market of one of its events |
| Gamma.NormalizeListed | markets_dashboard.py:150-196 | handling one listed market computes `NormalizeMarket`: raise, skip or keep the record |
| Gamma.NormalizeEvent | markets_dashboard.py:146-196 | the market loop of one event returns the records `NormalizeMarketsFrom` specifies and whether it raised |
| Gamma.NormalizePage | markets_dashboard.py:145-196 | the nested event/market loops return the records `NormalizeEvents` specifies, in event-then-market order, and whether the page raised, keeping the records before the exception |
| Gamma.FetchPage | markets_dashboard.py:134-207 | one request adds exactly the page's contribution (nothing on failure, the records before an exception) and the walk goes on iff the page was full and did not raise |
| Gamma.GammaFromRequests | markets_dashboard.py:122-207 | from request `k` on, the walk makes between one request and one past the oracle, every request before the last returned a full page, and the records are the contributions of the requests made |
| Gamma.GammaFromLast | markets_dashboard.py:134-207 | the last request failed, was empty, was short without raising, or raised; its contribution is the `lastPage` count |
| Gamma.GammaFromShape | markets_dashboard.py:122-207 | from request `k` on, every request before the last returned a full page that did not raise; the last failed, was empty, was short or raised; the records are the pages' contributions in request order; the last page's contribution is `lastPage` |
| Gamma.GammaWalkShape | markets_dashboard.py:116-209 | the whole walk makes at least one request and at most one past the oracle; the records are the pages' contributions in order |
| Gamma.GammaFromIgnoresLaterPages | markets_dashboard.py:122-207 | the walk never depends on an answer after the request that stopped it |
| Gamma.GammaFromKept | markets_dashboard.py:145-196 | every record of the walk was built from a market of a requested page and satisfies `KeptRecord` |
| Gamma.GammaWalkKept | markets_dashboard.py:166-196 | every record the listing walk keeps has volume and liquidity of at least 10 dollars, `has_rewards` False and the url built from the two slugs |
| RewardsSlugs.LinkSlugs | markets_dashboard.py:248-254 | one slug per link, in document order: the last `/`-segment of the capture, or "" |
| RewardsSlugs.DedupMembers | markets_dashboard.py:255-258 | the script keeps every non-empty slug of the page and nothing else |
| RewardsSlugs.DedupDistinct | markets_dashboard.py:255-258 | the script's list holds no slug twice |
| RewardsSlugs.DedupOrder | markets_dashboard.py:248-258 | of two kept slugs, the earlier one first occurs before the later one does |
| RewardsSlugs.PageSlugsMeaning | markets_dashboard.py:243-263 | the page script's result is the page's non-empty slugs, each once, in first-occurrence order |
| RewardsSlugs.ExtractSlugs | markets_dashboard.py:244-262 | the script's `forEach` with its `seen` set returns `PageSlugs` |
| RewardsSlugs.Scripted | markets_dashboard.py:239-263 | each page's answer is the page script's result on its links, or an error |
| RewardsSlugs.FetchSlugPage | markets_dashboard.py:239-263 | one page visit answers the page script's slugs, or fails |
| RewardsSlugs.VisitRewardsPage | markets_dashboard.py:238-285 | one pass of the page loop either ends the walk with the walk's slug set, the counter having shown the count before the page, or moves to the next page in the walk's own state |
| RewardsSlugs.RewardsFromPages | markets_dashboard.py:235-285 | from page `n` on, the walk's last page lies between `n` and 50, and every page before it answered with at least 80 slugs and did not repeat page 1's non-empty set |
| RewardsSlugs.RewardsFromStop | markets_dashboard.py:235-285 | the last page failed (its slugs are not kept), repeated page 1's set (not added), was short (added), or was page 50; the result is the union of the added pages |
| RewardsSlugs.RewardsFromProgress | markets_dashboard.py:235-236 | from page `n` on, the counter's last value is the number of distinct slugs the pages before the last page requested gave |
| RewardsSlugs.RewardsWalkProgress | markets_dashboard.py:231-285 | the rewards counter the whole walk leaves counts the slugs of the pages before its last page |
| RewardsSlugs.RewardsWalkShape | markets_dashboard.py:231-285 | the whole rewards walk visits 1 to 50 pages, goes on only after full non-repeating pages, and stops as `StoppedRightly` says |
| Dashboard.WithRewardsMeaning | markets_dashboard.py:307-308 | marking keeps the records' number, order and other fields, flags exactly the records whose slug is in the set, and is idempotent |
| Dashboard.MarkRewards | markets_dashboard.py:307-308 | the per-record loop computes `WithRewards` |
| RewardsSlugs.AddAll | markets_dashboard.py:272-278 | adding the page's slugs one by one gives the union with the page's set |
| Dashboard.MarketsMonitor.constructor | markets_dashboard.py:30-46 | no records, empty cache and rewards set, flags clear, progress `{0, 0, idle}`, no timer, no temporary results |
| Dashboard.MarketsMonitor.CancelAutoRefresh | markets_dashboard.py:56-60 | afterwards no timer is held or pending; calling it again changes nothing |
| Dashboard.MarketsMonitor.StartAutoRefresh | markets_dashboard.py:48-54 | the old timer is cancelled first, so exactly one timer is pending: a new one for 300 seconds |
| Dashboard.MarketsMonitor.StartFullRefresh | markets_dashboard.py:67-96 | nothing changes while either flag is set; otherwise the cache becomes the records only if there are any, the timer is re-armed, and progress is `{0, 0, fetching}` |
| Dashboard.MarketsMonitor.AutoRefresh | markets_dashboard.py:62-65 | the fired timer calls the start; if a fetch is under way, no timer is left pending |
| Dashboard.MarketsMonitor.AutoRefreshRearming | markets_dashboard.py:62-65 | corrected handler: one timer is pending afterwards in every case |
| Dashboard.MarketsMonitor.EnterMarketsThread | markets_dashboard.py:98-100 | the markets worker sets its flag when it starts |
| Dashboard.MarketsMonitor.LeaveMarketsThread | markets_dashboard.py:103-104 | the markets worker clears its flag when it ends |
| Dashboard.MarketsMonitor.EnterRewardsThread | markets_dashboard.py:106-108 | the rewards worker sets its flag when it starts |
| Dashboard.MarketsMonitor.LeaveRewardsThread | markets_dashboard.py:111-112 | the rewards worker clears its flag when it ends |
| Dashboard.MarketsMonitor.FetchAllMarkets | markets_dashboard.py:114-210 | the listing loop requests offsets 0, 100, 200, … and stores exactly `GammaWalk`'s records; the counter shows the records gathered before the last page |
| Dashboard.MarketsMonitor.FetchRewardsSlugs | markets_dashboard.py:212-293 | without Playwright, or when the browser does not start or open its page, the result is the empty set; otherwise the loop stores `RewardsWalk`'s slug set and leaves its counter value |
| Dashboard.MarketsMonitor.CombineData | markets_dashboard.py:295-321 | absent temporary results count as empty; the rewards set is replaced only by a non-empty one; the records are the fetched list, marked; progress is `{len(markets), len(rewards), ready}`; both temporary results are dropped |
| Dashboard.MarketsMonitor.Served | markets_dashboard.py:347-348 | the cache is served iff a flag is set and the cache is not empty, otherwise the current records |
| Dashboard.MarketsMonitor.MarketsEndpoint | markets_dashboard.py:340-358 | `/api/markets` sends the served records, their count as `total_count`, the flag, the progress and the rewards set's size |
| Dashboard.MarketsMonitor.StatusEndpoint | markets_dashboard.py:360-372 | `/api/status` counts the current records, not the served ones |
| Dashboard.MarketsMonitor.RefreshEndpoint | markets_dashboard.py:374-384 | `/api/refresh` always answers "started" and spawns a start exactly when no flag is set |
| Dashboard.MarketsMonitor.BeginCycle | markets_dashboard.py:67-112 | once a refresh has started and the workers have set their flags, `/api/markets` serves the records from before the start when there were any (the older cache otherwise) and one timer is pending |
| Dashboard.MarketsMonitor.FinishCycle | markets_dashboard.py:98-321 | after both workers and the combine, the records are `GammaWalk`'s records marked with the new rewards set, or the previous set when the new one is empty; progress is ready |
| Dashboard.MarketsMonitor.DoubleStart | markets_dashboard.py:67-108 | two starts before the workers set their flags both go ahead: two timers are made and only the second is pending |
| V1Scraper.CutAt | v1_rewards_scraper.py:92-93 | one cutoff step returns a prefix of the question |
| V1Scraper.CutAll | v1_rewards_scraper.py:91-94 | the cutoff loop returns a prefix of the link text |
| V1Scraper.CutAtMeaning | v1_rewards_scraper.py:92-93 | the question is kept exactly when `c` occurs at its start or nowhere; otherwise it is cut just before the first occurrence of `c`, which lies past the start; afterwards the first occurrence of `c`, if any, is at the very start |
| V1Scraper.CutAllMeaning | v1_rewards_scraper.py:90-94 | after the loop, the first occurrence of each cutoff word tried, if any, is at the very start, and the text is the whole input or a non-empty prefix ending where one of the cutoff words occurs in the input |
| V1Scraper.QuestionMeaning | v1_rewards_scraper.py:88-95 | the question is the cut prefix of the link text trimmed of JavaScript white space, so it neither starts nor ends with such a character; in the cut prefix the first occurrence of each cutoff word, if any, is at the very start; the prefix is the whole text or ends where a cutoff word occurs |
| V1Scraper.TruncateQuestion | v1_rewards_scraper.py:88-95 | the script's cutoff loop and `trim` compute `Question` |
| V1Scraper.ScanSeen | v1_rewards_scraper.py:62-67 | the script's `seen` set is the set of the page's non-empty full slugs |
| V1Scraper.ScanEntries | v1_rewards_scraper.py:66-121 | every entry comes from the first link with its slug and has a question longer than 5 characters |
| V1Scraper.ScanDistinct | v1_rewards_scraper.py:66-67 | the script never reports two entries with the same slug |
| V1Scraper.ScanComplete | v1_rewards_scraper.py:66-121 | the first link with a slug yields an entry when its question is longer than 5 characters |
| V1Scraper.ScanInOrder | v1_rewards_scraper.py:66-121 | the script's scan keeps exactly the entries of the qualifying links (first with their non-empty slug, question longer than 5), in document order |
| V1Scraper.PageEntriesSound | v1_rewards_scraper.py:61-124 | a page's entries are exactly the qualifying links' entries in document order; they have distinct non-empty condition ids, `condition_id == market_slug`, questions longer than 5, and each comes from the first link with its slug |
| V1Scraper.PageEntriesComplete | v1_rewards_scraper.py:61-124 | the first link with a non-empty slug and a question longer than 5 yields its entry |
| V1Scraper.PageFirstEntry | v1_rewards_scraper.py:61-134 | a page has no entries exactly when no link qualifies; otherwise its first entry, the one the loop-back test reads as `markets_data[0]`, is made from the first qualifying link |
| V1Scraper.ExtractEntries | v1_rewards_scraper.py:55-124 | the script's `forEach` with its `seen` set returns `PageEntries` |
| V1Scraper.AddNewConsistent | v1_rewards_scraper.py:139-145 | `seen_ids` remains the set of the gathered ids, which stay non-empty and distinct |
| V1Scraper.AddNewOrder | v1_rewards_scraper.py:139-145 | adding a page appends exactly the page's entries whose ids are non-empty, not seen before and not repeated earlier on the page, in the page's order, and adds the page's non-empty ids to `seen_ids` |
| V1Scraper.AddNewAppends | v1_rewards_scraper.py:139-145 | adding a page keeps what was gathered, only appends entries of the page whose ids were not seen before, and the appended part is the page's new entries in the page's order |
| V1Scraper.AddNewSeesAll | v1_rewards_scraper.py:139-145 | every non-empty id of the page is seen afterwards |
| V1Scraper.AddNewMarkets | v1_rewards_scraper.py:139-145 | the loop computes `AddNew` |
| V1Scraper.FetchEntryPage | v1_rewards_scraper.py:48-125 | one page visit answers the page script's entries, or fails |
| V1Scraper.VisitEntryPage | v1_rewards_scraper.py:48-158 | one pass of the page loop either ends the walk, the walk's result being the state reached at this page, or moves to the next page in the walk's own state |
| V1Scraper.ScrapeFromPages | v1_rewards_scraper.py:44-158 | from page `n` on, the final page lies between `n` and 101 (101 exactly at the limit), and every page before it had at least 90 entries and did not loop back |
| V1Scraper.ScrapeFromStop | v1_rewards_scraper.py:44-158 | the final page failed, looped back to page 1's first id (nothing of it added), was partial (added), or the limit was reached; the gathered list is that of the pages added |
| V1Scraper.ScrapeFromConsistent | v1_rewards_scraper.py:44-158 | no two gathered entries share a condition id, at any point of the walk |
| V1Scraper.GatheredFirstSeen | v1_rewards_scraper.py:44-158 | what pages 1 to `m` gather is, in order, the first entry with each non-empty condition id over their entries one page after the other; `seen_ids` is the set of those ids |
| V1Scraper.ScrapeWalkShape | v1_rewards_scraper.py:27-168 | the whole walk ends at a page from 1 to 101 and stops as `ScrapeStoppedRightly` says; its entries have distinct non-empty ids and are, in first-seen order, the first entry with each id over the added pages' entries, page after page |
| V1Scraper.RewardsMonitor.constructor | v1_rewards_scraper.py:21-25 | no entries, no timestamp, not scraping, progress `{0, "?"}` |
| V1Scraper.RewardsMonitor.ScrapeAllPages | v1_rewards_scraper.py:27-168 | if the browser does not start or open its page, `is_scraping` stays set and nothing else changes; if closing it fails, `is_scraping` stays set, the entries are not stored and progress shows the last page visited (at most 100) with total "?"; otherwise the loop stores `ScrapeWalk`'s entries, clears the flag and sets progress to `{final page, final page}` |
| V1Scraper.RewardsMonitor.ScrapeAllPagesReleasing | v1_rewards_scraper.py:27-168 | corrected session: the flag is clear afterwards in every case, and the entries, timestamp and progress are as `ScrapeAllPages` leaves them |
| V1Scraper.RewardsMonitor.GetData | v1_rewards_scraper.py:170-178 | `total_count` is the number of entries |
| V1Scraper.RewardsMonitor.StatusEndpoint | v1_rewards_scraper.py:211-217 | `/api/status` reports the flag, the number of entries, the timestamp and the progress |
| V1Scraper.RewardsMonitor.RefreshEndpoint | v1_rewards_scraper.py:202-209 | "busy" exactly while scraping; otherwise "started", and a scrape is spawned |
| V1Scraper.RewardsMonitor.FailedLaunchBlocksRefresh | v1_rewards_scraper.py:29-35 | after a scrape whose browser does not start, every refresh request answers "busy" and spawns nothing |
| V1Scraper.RewardsMonitor.FailedLaunchReleasedRefresh | v1_rewards_scraper.py:29-35 | with the corrected session, the next refresh request starts a scrape again |

## Left out

- The threads are not modelled: `threading.Thread`, `threading.Timer`, `asyncio.run` and the join thread. Each thread step is a method a caller invokes in order; the model does not explore interleavings inside a step.
- The timer is a handle that is armed, cancelled or fires; no clock is modelled.
- Network and browser calls are replaced by page oracles and booleans: `urllib`, `goto`, `evaluate` and `wait_for_timeout` by the oracles; Playwright's `launch` and `new_page` by one flag, since a failure in either has the same effect; v1's `browser.close` by a second flag. In the dashboard a failing `browser.close` is caught after the walk and changes nothing, so it needs no flag.
- JSON decoding is not modelled: an `outcomes`/`outcomePrices` string that is not valid JSON, and `json.dumps` of the replies.
- Floating point is not modelled: `float(...) * 100`, `round(..., 2)` and v1's `parseFloat`. Prices are abstract integers.
- The v1 script's DOM work is not modelled, because it depends on the browser's DOM. This covers the container climbing, the image lookup, and the spread and Yes/No price regexes (v1_rewards_scraper.py:73-85, 97-108). Entries carry no image, spread or prices.
- HTTP plumbing is not modelled: status codes, headers, the HTML page, 404s and logging.
- The HTML/CSS/JavaScript front-ends are not modelled: filtering, sorting, pagination and colours.
- Timestamps from `datetime.now().isoformat()` are an opaque `now` parameter.
- The `id`, `spread`, `endDate` and `volume24hr` fields are copied through and not interpreted.
- V1Scraper.ScanFrom: the test `question.length > 5` counts UTF-16 code units in JavaScript. The model counts characters, which differs for characters outside the Basic Multilingual Plane.
- Dashboard.MarketsMonitor.FetchAllMarkets: states only the markets counter's final value. The intermediate values a concurrent `/api/status` could read are not stated.
- Dashboard.MarketsMonitor.FetchRewardsSlugs: states only the rewards counter's final value, for the same reason.
- V1Scraper.RewardsMonitor.ScrapeAllPages: states only the progress at the end. During the walk, `current` follows the page number and `total` is "?".

## Findings

| source | as written | input that shows it | evidently intended | confidence | as-written member | corrected member |
|---|---|---|---|---|---|---|
| markets_dashboard.py:62-78 | the timer callback calls `start_full_refresh`, which returns early without re-arming when a fetch is still running | a refresh that takes longer than 300 seconds: its timer fires while the flags are set, and afterwards no timer is pending, so auto-refresh stops until someone presses the page's refresh button (markets_dashboard.py:775), whose start re-arms the timer | auto-refresh every 5 minutes (markets_dashboard.py:10), so a timer stays pending | medium, not executed | Dashboard.MarketsMonitor.AutoRefresh | Dashboard.MarketsMonitor.AutoRefreshRearming |
| v1_rewards_scraper.py:29-35 | `is_scraping` is set before the browser starts, and it is cleared only after the walk, outside any `finally` (the same happens when `new_page` or `browser.close` fails, v1_rewards_scraper.py:36, 160) | a refresh while the browser cannot launch: the exception leaves `is_scraping` True, and every later `/api/refresh` answers "busy" without starting a scrape | a failed scrape releases the flag, so a later refresh can try again | medium, not executed | V1Scraper.RewardsMonitor.FailedLaunchBlocksRefresh | V1Scraper.RewardsMonitor.FailedLaunchReleasedRefresh |
