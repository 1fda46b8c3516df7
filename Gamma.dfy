/** The Gamma listing source of the markets dashboard: the shape of the events the listing API
    returns, how one listed market becomes a dashboard record (price selection by outcome
    name, placeholder and volume/liquidity filtering, derived url and image), and the
    specification of the offset walk over the listing pages. The walk itself is the method
    `MarketsMonitor.FetchAllMarkets` in module Dashboard. */
module Gamma {
  import opened Common

  /** The listing is requested `limit=100` events at a time. */
  const PageLimit: nat := 100

  /** Markets with less than 10 (dollars) of volume or of liquidity are dropped. Amounts are
      integer cents, so the threshold is 1000. */
  const MinAmount: int := 1000

  const MarketUrlPrefix: string := "https://polymarket.com/event/"

  /** One entry of a market's `outcomePrices`: a price (as hundredths of a cent, the value of
      `round(float(p) * 100, 2)`), or a value `float` rejects (a non-numeric string or a `null`). */
  datatype RawPrice = Parsed(hundredths: int) | Unparseable

  /** A market as listed under an event. An absent or empty `image` is "". `volumeNum` and
      `liquidityNum` are None when absent or null. */
  datatype RawMarket = RawMarket(
    id: string,
    question: string,
    slug: string,
    image: string,
    outcomes: seq<string>,
    outcomePrices: seq<RawPrice>,
    volumeNum: Option<int>,
    liquidityNum: Option<int>,
    spread: Option<int>,
    volume24hr: int,
    endDate: string)

  /** One event of a listing page with its markets. */
  datatype RawEvent = RawEvent(title: string, slug: string, image: string, markets: seq<RawMarket>)

  /** A dashboard record. `hasRewards` is False when the record is built and is set when the
      two sources are combined. */
  datatype Market = Market(
    id: string,
    question: string,
    slug: string,
    eventTitle: string,
    eventSlug: string,
    image: string,
    yesPrice: int,
    noPrice: int,
    spread: Option<int>,
    volume: int,
    volume24hr: int,
    liquidity: int,
    endDate: string,
    url: string,
    hasRewards: bool)

  function MarketUrl(eventSlug: string, marketSlug: string): string {
    MarketUrlPrefix + eventSlug + "/" + marketSlug
  }

  // ---------------------------------------------------------------------------------------
  // Price selection by outcome name

  /** The outcome loop either raised (an outcome without a price: IndexError; a price `float`
      rejects: ValueError, or TypeError for a `null`) or picked a Yes and a No price, each
      possibly missing. */
  datatype Selection = Raised | Picked(yes: Option<int>, no: Option<int>)

  /** `float(prices[i])` raises for outcome `i`. */
  predicate BadPrice(prices: seq<RawPrice>, i: nat) {
    i >= |prices| || prices[i].Unparseable?
  }

  /** The outcome loop after its first `n` iterations. */
  function SelectUpTo(outcomes: seq<string>, prices: seq<RawPrice>, n: nat): Selection
    requires n <= |outcomes|
  {
    if n == 0 then Picked(None, None)
    else
      match SelectUpTo(outcomes, prices, n - 1)
      case Raised => Raised
      case Picked(yes, no) =>
        if BadPrice(prices, n - 1) then Raised
        else if outcomes[n - 1] == "Yes" then Picked(Some(prices[n - 1].hundredths), no)
        else if outcomes[n - 1] == "No" then Picked(yes, Some(prices[n - 1].hundredths))
        else Picked(yes, no)
  }

  /** The price selection of the listing walk: the outcome loop runs only when both arrays have
      at least two entries. */
  function PriceSelection(outcomes: seq<string>, prices: seq<RawPrice>): Selection {
    if |prices| >= 2 && |outcomes| >= 2 then SelectUpTo(outcomes, prices, |outcomes|)
    else Picked(None, None)
  }

  /** `v` is what the loop over the first `n` outcomes leaves for the outcome called `name`:
      nothing when no outcome has that name, otherwise the price of the last one that has. */
  ghost predicate LastPriceOf(outcomes: seq<string>, prices: seq<RawPrice>, n: nat, name: string, v: Option<int>)
    requires n <= |outcomes|
  {
    && (v.None? <==> forall i :: 0 <= i < n ==> outcomes[i] != name)
    && (v.Some? ==> exists i ::
          && 0 <= i < n && outcomes[i] == name
          && i < |prices| && prices[i] == Parsed(v.value)
          && forall j :: i < j < n ==> outcomes[j] != name)
  }

  /** The price the selection keeps for `name`. */
  function PickedFor(s: Selection, name: string): Option<int>
    requires s.Picked?
  {
    if name == "Yes" then s.yes else s.no
  }

  /** The outcome loop raises exactly when one of the outcomes so far has no usable price. */
  lemma {:induction false} SelectUpToRaised(outcomes: seq<string>, prices: seq<RawPrice>, n: nat)
    requires n <= |outcomes|
    ensures SelectUpTo(outcomes, prices, n).Raised? <==> exists i :: 0 <= i < n && BadPrice(prices, i)
  {
    if n > 0 {
      SelectUpToRaised(outcomes, prices, n - 1);
      if BadPrice(prices, n - 1) {
        assert SelectUpTo(outcomes, prices, n).Raised?;
      }
    }
  }

  /** While the outcome loop has not raised, it holds for "Yes" and for "No" the price of the
      last outcome so far with that name. */
  lemma {:induction false} SelectUpToLast(outcomes: seq<string>, prices: seq<RawPrice>, n: nat, name: string)
    requires n <= |outcomes| && (name == "Yes" || name == "No")
    ensures SelectUpTo(outcomes, prices, n).Picked? ==>
      LastPriceOf(outcomes, prices, n, name, PickedFor(SelectUpTo(outcomes, prices, n), name))
  {
    if n > 0 {
      SelectUpToLast(outcomes, prices, n - 1, name);
      var prev := SelectUpTo(outcomes, prices, n - 1);
      if prev.Picked? && !BadPrice(prices, n - 1) {
        var v := PickedFor(SelectUpTo(outcomes, prices, n), name);
        if outcomes[n - 1] == name {
          assert v == Some(prices[n - 1].hundredths);
        } else {
          assert v == PickedFor(prev, name);
        }
      }
    }
  }

  lemma SelectUpToMeaning(outcomes: seq<string>, prices: seq<RawPrice>, n: nat)
    requires n <= |outcomes|
    ensures SelectUpTo(outcomes, prices, n).Raised? <==> exists i :: 0 <= i < n && BadPrice(prices, i)
    ensures SelectUpTo(outcomes, prices, n).Picked? ==>
      && LastPriceOf(outcomes, prices, n, "Yes", SelectUpTo(outcomes, prices, n).yes)
      && LastPriceOf(outcomes, prices, n, "No", SelectUpTo(outcomes, prices, n).no)
  {
    SelectUpToRaised(outcomes, prices, n);
    SelectUpToLast(outcomes, prices, n, "Yes");
    SelectUpToLast(outcomes, prices, n, "No");
  }

  /** What the selection means, stated without the loop: it raises exactly when some outcome
      has no usable price, and otherwise the Yes (No) price is that of the last outcome named
      "Yes" ("No"), or missing when there is none or when either array is shorter than two. */
  lemma PriceSelectionMeaning(outcomes: seq<string>, prices: seq<RawPrice>)
    ensures PriceSelection(outcomes, prices).Raised? <==>
      |prices| >= 2 && |outcomes| >= 2 && exists i :: 0 <= i < |outcomes| && BadPrice(prices, i)
    ensures |prices| < 2 || |outcomes| < 2 ==> PriceSelection(outcomes, prices) == Picked(None, None)
    ensures PriceSelection(outcomes, prices).Picked? && |prices| >= 2 && |outcomes| >= 2 ==>
      && LastPriceOf(outcomes, prices, |outcomes|, "Yes", PriceSelection(outcomes, prices).yes)
      && LastPriceOf(outcomes, prices, |outcomes|, "No", PriceSelection(outcomes, prices).no)
  {
    if |prices| >= 2 && |outcomes| >= 2 {
      SelectUpToMeaning(outcomes, prices, |outcomes|);
    }
  }

  /** Once the outcome loop has raised, it stays raised. */
  lemma {:induction false} RaisedPersists(outcomes: seq<string>, prices: seq<RawPrice>, i: nat, n: nat)
    requires i <= n <= |outcomes|
    requires SelectUpTo(outcomes, prices, i).Raised?
    ensures SelectUpTo(outcomes, prices, n).Raised?
  {
    if n > i {
      RaisedPersists(outcomes, prices, i, n - 1);
    }
  }

  /** The outcome loop of the listing walk, as the source runs it. */
  method SelectPrices(outcomes: seq<string>, prices: seq<RawPrice>) returns (s: Selection)
    ensures s == PriceSelection(outcomes, prices)
  {
    var yes: Option<int> := None;
    var no: Option<int> := None;
    if |prices| >= 2 && |outcomes| >= 2 {
      for i := 0 to |outcomes|
        invariant SelectUpTo(outcomes, prices, i) == Picked(yes, no)
      {
        if i >= |prices| || prices[i].Unparseable? {
          RaisedPersists(outcomes, prices, i + 1, |outcomes|);
          return Raised;
        }
        var cents := prices[i].hundredths;
        if outcomes[i] == "Yes" {
          yes := Some(cents);
        } else if outcomes[i] == "No" {
          no := Some(cents);
        }
      }
    }
    s := Picked(yes, no);
  }

  // ---------------------------------------------------------------------------------------
  // Normalising one listed market

  /** A listed market is kept as a record, skipped, or makes the page raise. */
  datatype Normalized = Keep(market: Market) | Skip | Raise

  /** Turns a listed market into a dashboard record: placeholders without a Yes or a No price
      are skipped, so are markets under the volume or liquidity threshold. */
  function NormalizeMarket(e: RawEvent, m: RawMarket): Normalized {
    match PriceSelection(m.outcomes, m.outcomePrices)
    case Raised => Raise
    case Picked(yes, no) =>
      if yes.None? || no.None? then Skip
      else
        var volume := m.volumeNum.GetOr(0);
        var liquidity := m.liquidityNum.GetOr(0);
        if volume < MinAmount || liquidity < MinAmount then Skip
        else Keep(Market(
          m.id, m.question, m.slug, e.title, e.slug,
          if m.image != "" then m.image else e.image,
          yes.value, no.value, m.spread, volume, m.volume24hr, liquidity, m.endDate,
          MarketUrl(e.slug, m.slug), false))
  }

  /** The invariant every kept record satisfies: both amounts reach the threshold, the
      rewards flag is still clear, and the url is built from the event and market slugs. */
  ghost predicate KeptRecord(x: Market) {
    && x.volume >= MinAmount
    && x.liquidity >= MinAmount
    && !x.hasRewards
    && x.url == MarketUrl(x.eventSlug, x.slug)
  }

  /** When a listed market is kept, skipped or raises, and what the kept record holds. */
  lemma NormalizeMarketMeaning(e: RawEvent, m: RawMarket)
    ensures NormalizeMarket(e, m).Raise? <==>
      |m.outcomePrices| >= 2 && |m.outcomes| >= 2 &&
      exists i :: 0 <= i < |m.outcomes| && BadPrice(m.outcomePrices, i)
    ensures NormalizeMarket(e, m).Keep? <==>
      && !PriceSelection(m.outcomes, m.outcomePrices).Raised?
      && |m.outcomePrices| >= 2 && |m.outcomes| >= 2
      && "Yes" in m.outcomes && "No" in m.outcomes
      && m.volumeNum.Some? && m.volumeNum.value >= MinAmount
      && m.liquidityNum.Some? && m.liquidityNum.value >= MinAmount
    ensures NormalizeMarket(e, m).Keep? ==>
      var x := NormalizeMarket(e, m).market;
      && KeptRecord(x)
      && x.slug == m.slug && x.eventSlug == e.slug && x.eventTitle == e.title && x.id == m.id
      && x.image == (if m.image != "" then m.image else e.image)
      && x.volume == m.volumeNum.value && x.liquidity == m.liquidityNum.value
      && LastPriceOf(m.outcomes, m.outcomePrices, |m.outcomes|, "Yes", Some(x.yesPrice))
      && LastPriceOf(m.outcomes, m.outcomePrices, |m.outcomes|, "No", Some(x.noPrice))
  {
    PriceSelectionMeaning(m.outcomes, m.outcomePrices);
    var s := PriceSelection(m.outcomes, m.outcomePrices);
    if s.Picked? && |m.outcomePrices| >= 2 && |m.outcomes| >= 2 {
      if "Yes" in m.outcomes {
        var i :| 0 <= i < |m.outcomes| && m.outcomes[i] == "Yes";
        assert s.yes.Some?;
      }
      if "No" in m.outcomes {
        var i :| 0 <= i < |m.outcomes| && m.outcomes[i] == "No";
        assert s.no.Some?;
      }
    }
  }

  // ---------------------------------------------------------------------------------------
  // Normalising one listing page

  /** The records a page contributes, in event-then-market order, and whether processing the
      page raised (the records appended before the exception stay). */
  datatype PageRecords = PageRecords(records: seq<Market>, raised: bool)

  /** `acc` followed by what `p` contributes. */
  function After(acc: seq<Market>, p: PageRecords): PageRecords {
    PageRecords(acc + p.records, p.raised)
  }

  /** What the market loop of event `e` contributes from market `j` on. */
  function NormalizeMarketsFrom(e: RawEvent, j: nat): PageRecords
    decreases |e.markets| - j
  {
    if j >= |e.markets| then PageRecords([], false)
    else
      match NormalizeMarket(e, e.markets[j])
      case Raise => PageRecords([], true)
      case Skip => NormalizeMarketsFrom(e, j + 1)
      case Keep(x) => After([x], NormalizeMarketsFrom(e, j + 1))
  }

  /** What the event loop contributes from event `i` on. */
  function NormalizeEventsFrom(events: seq<RawEvent>, i: nat): PageRecords
    decreases |events| - i
  {
    if i >= |events| then PageRecords([], false)
    else
      var first := NormalizeMarketsFrom(events[i], 0);
      if first.raised then first
      else After(first.records, NormalizeEventsFrom(events, i + 1))
  }

  /** What a whole listing page contributes. */
  function NormalizeEvents(events: seq<RawEvent>): PageRecords {
    NormalizeEventsFrom(events, 0)
  }

  /** Record `x` was built from market `j` of event `i` of `events`. */
  ghost predicate BuiltFrom(events: seq<RawEvent>, x: Market) {
    exists i, j :: 0 <= i < |events| && 0 <= j < |events[i].markets| &&
      NormalizeMarket(events[i], events[i].markets[j]) == Keep(x)
  }

  lemma {:induction false} NormalizeMarketsBuilt(e: RawEvent, j: nat)
    ensures forall x :: x in NormalizeMarketsFrom(e, j).records ==>
      exists k :: j <= k < |e.markets| && NormalizeMarket(e, e.markets[k]) == Keep(x)
    decreases |e.markets| - j
  {
    if j < |e.markets| && !NormalizeMarket(e, e.markets[j]).Raise? {
      NormalizeMarketsBuilt(e, j + 1);
      forall x | x in NormalizeMarketsFrom(e, j).records
        ensures exists k :: j <= k < |e.markets| && NormalizeMarket(e, e.markets[k]) == Keep(x)
      {
        if x !in NormalizeMarketsFrom(e, j + 1).records {
          assert NormalizeMarket(e, e.markets[j]) == Keep(x);
        }
      }
    }
  }

  /** Every record of a page was built from one of the page's markets. */
  lemma {:induction false} NormalizeEventsBuilt(events: seq<RawEvent>, i: nat)
    ensures forall x :: x in NormalizeEventsFrom(events, i).records ==> BuiltFrom(events, x)
    decreases |events| - i
  {
    if i < |events| {
      var first := NormalizeMarketsFrom(events[i], 0);
      NormalizeMarketsBuilt(events[i], 0);
      if !first.raised {
        NormalizeEventsBuilt(events, i + 1);
      }
      forall x | x in NormalizeEventsFrom(events, i).records ensures BuiltFrom(events, x) {
        if x in first.records {
          var k :| 0 <= k < |events[i].markets| && NormalizeMarket(events[i], events[i].markets[k]) == Keep(x);
        }
      }
    }
  }

  /** The body of the market loop for one listed market, as the source runs it. It is a
      method because it runs the outcome loop (`SelectPrices`), which a function cannot call;
      `NormalizeMarket` is its specification, and the lemmas about listed markets are stated
      about that function. */
  method NormalizeListed(e: RawEvent, m: RawMarket) returns (n: Normalized)
    ensures n == NormalizeMarket(e, m)
  {
    var selection := SelectPrices(m.outcomes, m.outcomePrices);
    if selection.Raised? {
      return Raise;
    }
    var yes, no := selection.yes, selection.no;
    if yes.None? || no.None? {
      return Skip;
    }
    var volume := m.volumeNum.GetOr(0);
    var liquidity := m.liquidityNum.GetOr(0);
    if volume < MinAmount || liquidity < MinAmount {
      return Skip;
    }
    n := Keep(Market(
      m.id, m.question, m.slug, e.title, e.slug,
      if m.image != "" then m.image else e.image,
      yes.value, no.value, m.spread, volume, m.volume24hr, liquidity, m.endDate,
      MarketUrl(e.slug, m.slug), false));
  }

  /** The market loop of one event: the records it appends, and whether a market raised
      (the records appended before it stay). */
  method NormalizeEvent(e: RawEvent) returns (records: seq<Market>, raised: bool)
    ensures PageRecords(records, raised) == NormalizeMarketsFrom(e, 0)
  {
    records := [];
    for j := 0 to |e.markets|
      invariant After(records, NormalizeMarketsFrom(e, j)) == NormalizeMarketsFrom(e, 0)
    {
      var n := NormalizeListed(e, e.markets[j]);
      ghost var rest := NormalizeMarketsFrom(e, j + 1);
      if n.Raise? {
        return records, true;
      }
      if n.Keep? {
        assert (records + [n.market]) + rest.records == records + ([n.market] + rest.records);
        records := records + [n.market];
      }
    }
    raised := false;
  }

  /** The nested event/market loops of one listing page, as the source runs them; the records
      are returned in the order they were appended. */
  method NormalizePage(events: seq<RawEvent>) returns (records: seq<Market>, raised: bool)
    ensures PageRecords(records, raised) == NormalizeEvents(events)
  {
    records := [];
    for i := 0 to |events|
      invariant After(records, NormalizeEventsFrom(events, i)) == NormalizeEvents(events)
    {
      var eventRecords, eventRaised := NormalizeEvent(events[i]);
      ghost var rest := NormalizeEventsFrom(events, i + 1);
      assert (records + eventRecords) + rest.records == records + (eventRecords + rest.records);
      records := records + eventRecords;
      if eventRaised {
        return records, true;
      }
    }
    raised := false;
  }

  // ---------------------------------------------------------------------------------------
  // The listing walk

  /** Why the walk stopped at its last request. */
  datatype GammaStop = NoResponse | EmptyPage | ShortPage | PageRaised

  /** The outcome of walking the listing from some request on: the records gathered, the
      number of the request after the last one made (`requests` requests counted from 0),
      how many records the last page contributed, and why the walk stopped. */
  datatype GammaRun = GammaRun(records: seq<Market>, requests: nat, lastPage: nat, stop: GammaStop)

  /** The walk from request `k` on (request `k` asks for `offset = 100 * k`). */
  function GammaFrom(pages: seq<PageResult<RawEvent>>, k: nat): (r: GammaRun)
    decreases |pages| - k
  {
    if k >= |pages| then GammaRun([], k + 1, 0, NoResponse)
    else
      match pages[k]
      case Fail => GammaRun([], k + 1, 0, NoResponse)
      case Ok(events) =>
        if events == [] then GammaRun([], k + 1, 0, EmptyPage)
        else
          var p := NormalizeEvents(events);
          if p.raised then GammaRun(p.records, k + 1, |p.records|, PageRaised)
          else if |events| < PageLimit then GammaRun(p.records, k + 1, |p.records|, ShortPage)
          else
            var rest := GammaFrom(pages, k + 1);
            rest.(records := p.records + rest.records)
  }

  /** The whole listing walk, from offset 0. */
  function GammaWalk(pages: seq<PageResult<RawEvent>>): GammaRun {
    GammaFrom(pages, 0)
  }

  /** Request `k` returned a full page that did not raise: the walk goes on after it. */
  ghost predicate FullPage(pages: seq<PageResult<RawEvent>>, k: nat) {
    && k < |pages| && pages[k].Ok? && |pages[k].items| >= PageLimit
    && !NormalizeEvents(pages[k].items).raised
  }

  /** The records request `k` contributes. */
  function PageContribution(pages: seq<PageResult<RawEvent>>, k: nat): seq<Market> {
    match PageAt(pages, k)
    case Fail => []
    case Ok(events) => NormalizeEvents(events).records
  }

  /** One request of the walk: after a full page that did not raise the walk goes on and
      puts that page's records first; otherwise the walk ends here with that page's records. */
  lemma GammaFromStep(pages: seq<PageResult<RawEvent>>, k: nat)
    ensures FullPage(pages, k) ==>
      GammaFrom(pages, k) == GammaFrom(pages, k + 1).(records := PageContribution(pages, k) + GammaFrom(pages, k + 1).records)
    ensures !FullPage(pages, k) ==>
      && GammaFrom(pages, k).records == PageContribution(pages, k)
      && GammaFrom(pages, k).requests == k + 1
      && GammaFrom(pages, k).lastPage == |PageContribution(pages, k)|
  {
  }

  /** One request of the walk as the source handles its answer: no events are processed for
      a failed request or an empty page; otherwise the page is normalised. It reports the
      records the page contributes and whether the walk goes on after it. */
  method FetchPage(pages: seq<PageResult<RawEvent>>, k: nat) returns (records: seq<Market>, full: bool)
    ensures records == PageContribution(pages, k)
    ensures full <==> FullPage(pages, k)
  {
    var answer := PageAt(pages, k);
    records, full := [], false;
    if answer.Ok? && answer.items != [] {
      var raised;
      records, raised := NormalizePage(answer.items);
      full := !raised && |answer.items| >= PageLimit;
    }
  }

  /** The contributions of requests `k` up to (not including) `n`, in request order. */
  function Contributions(pages: seq<PageResult<RawEvent>>, k: nat, n: nat): seq<Market>
    decreases n - k
  {
    if k >= n then [] else PageContribution(pages, k) + Contributions(pages, k + 1, n)
  }

  /** The walk makes requests `k` up to its last one, every request before the last returned
      a full page that did not raise, and the records are the contributions of all requests
      made, in order. */
  lemma {:induction false} GammaFromRequests(pages: seq<PageResult<RawEvent>>, k: nat)
    requires k <= |pages|
    ensures var r := GammaFrom(pages, k);
      && k < r.requests <= |pages| + 1
      && (forall j :: k <= j < r.requests - 1 ==> FullPage(pages, j))
      && r.records == Contributions(pages, k, r.requests)
    decreases |pages| - k
  {
    GammaFromStep(pages, k);
    if FullPage(pages, k) {
      GammaFromRequests(pages, k + 1);
    } else {
      assert Contributions(pages, k + 1, k + 1) == [];
    }
  }

  /** How the walk's last request ended, and what the last page contributed. */
  lemma {:induction false} GammaFromLast(pages: seq<PageResult<RawEvent>>, k: nat)
    requires k <= |pages|
    ensures var r := GammaFrom(pages, k);
      && r.requests >= 1
      && r.lastPage == |PageContribution(pages, r.requests - 1)|
      && match r.stop
         case NoResponse => PageAt(pages, r.requests - 1) == Fail
         case EmptyPage => PageAt(pages, r.requests - 1) == Ok([])
         case ShortPage => PageAt(pages, r.requests - 1).Ok? && 0 < |PageAt(pages, r.requests - 1).items| < PageLimit
           && !NormalizeEvents(PageAt(pages, r.requests - 1).items).raised
         case PageRaised => PageAt(pages, r.requests - 1).Ok? && NormalizeEvents(PageAt(pages, r.requests - 1).items).raised
    decreases |pages| - k
  {
    GammaFromStep(pages, k);
    if FullPage(pages, k) {
      GammaFromLast(pages, k + 1);
    }
  }

  /** The walk's stopping rule and result: every request before the last returned a full page
      that did not raise, the last one failed, was empty, was short, or raised, and the
      records are the contributions of all requests made, in order. */
  lemma GammaFromShape(pages: seq<PageResult<RawEvent>>, k: nat)
    requires k <= |pages|
    ensures var r := GammaFrom(pages, k);
      && k < r.requests <= |pages| + 1
      && (forall j :: k <= j < r.requests - 1 ==> FullPage(pages, j))
      && r.records == Contributions(pages, k, r.requests)
      && r.lastPage == |PageContribution(pages, r.requests - 1)|
      && match r.stop
         case NoResponse => PageAt(pages, r.requests - 1) == Fail
         case EmptyPage => PageAt(pages, r.requests - 1) == Ok([])
         case ShortPage => PageAt(pages, r.requests - 1).Ok? && 0 < |PageAt(pages, r.requests - 1).items| < PageLimit
           && !NormalizeEvents(PageAt(pages, r.requests - 1).items).raised
         case PageRaised => PageAt(pages, r.requests - 1).Ok? && NormalizeEvents(PageAt(pages, r.requests - 1).items).raised
  {
    GammaFromRequests(pages, k);
    GammaFromLast(pages, k);
  }

  lemma GammaWalkShape(pages: seq<PageResult<RawEvent>>)
    ensures var r := GammaWalk(pages);
      && 0 < r.requests <= |pages| + 1
      && (forall j :: 0 <= j < r.requests - 1 ==> FullPage(pages, j))
      && r.records == Contributions(pages, 0, r.requests)
  {
    GammaFromShape(pages, 0);
  }

  /** The walk never consults an answer past the request that stopped it: two oracles that
      agree on the requests made give the same walk. */
  lemma {:induction false} GammaFromIgnoresLaterPages(pages: seq<PageResult<RawEvent>>, other: seq<PageResult<RawEvent>>, k: nat)
    requires k <= |pages|
    requires forall j :: k <= j < GammaFrom(pages, k).requests ==> PageAt(pages, j) == PageAt(other, j)
    ensures GammaFrom(other, k) == GammaFrom(pages, k)
    decreases |pages| - k
  {
    GammaFromShape(pages, k);
    assert PageAt(pages, k) == PageAt(other, k);
    if k < |pages| && FullPage(pages, k) {
      GammaFromIgnoresLaterPages(pages, other, k + 1);
    }
  }

  /** Every record the walk keeps was built from a market of a page it requested, so it
      satisfies `KeptRecord`. */
  lemma {:induction false} GammaFromKept(pages: seq<PageResult<RawEvent>>, k: nat)
    ensures forall x :: x in GammaFrom(pages, k).records ==>
      (exists j :: k <= j < |pages| && pages[j].Ok? && BuiltFrom(pages[j].items, x)) && KeptRecord(x)
    decreases |pages| - k
  {
    if k < |pages| && pages[k].Ok? && pages[k].items != [] {
      var p := NormalizeEvents(pages[k].items);
      NormalizeEventsBuilt(pages[k].items, 0);
      if !p.raised && |pages[k].items| >= PageLimit {
        GammaFromKept(pages, k + 1);
      }
      forall x | x in GammaFrom(pages, k).records
        ensures (exists j :: k <= j < |pages| && pages[j].Ok? && BuiltFrom(pages[j].items, x)) && KeptRecord(x)
      {
        if x !in p.records {
          var r := GammaFrom(pages, k + 1);
          assert GammaFrom(pages, k).records == p.records + r.records;
          assert x in r.records;
        } else {
          var i, j :| 0 <= i < |pages[k].items| && 0 <= j < |pages[k].items[i].markets| &&
            NormalizeMarket(pages[k].items[i], pages[k].items[i].markets[j]) == Keep(x);
          NormalizeMarketMeaning(pages[k].items[i], pages[k].items[i].markets[j]);
          assert pages[k].Ok? && BuiltFrom(pages[k].items, x);
        }
      }
    }
  }

  lemma GammaWalkKept(pages: seq<PageResult<RawEvent>>)
    ensures forall x :: x in GammaWalk(pages).records ==> KeptRecord(x)
  {
    GammaFromKept(pages, 0);
  }
}
