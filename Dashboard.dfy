/** The markets dashboard's monitor: the state the HTTP endpoints read, the refresh cycle that
    fills it from the two sources, the auto-refresh timer, and the endpoint replies.

    The source runs the two fetches in worker threads and combines their results in a third
    thread. Here each step a thread takes is a method, and a caller invokes them in the order
    the threads would run: `StartFullRefresh`, then `EnterMarketsThread` / `FetchAllMarkets` /
    `LeaveMarketsThread` and `EnterRewardsThread` / `FetchRewardsSlugs` / `LeaveRewardsThread`,
    then `CombineData`. The timer is a handle that is armed, cancelled or fires. */
module Dashboard {
  import opened Common
  import opened Gamma
  import opened RewardsSlugs

  /** The auto-refresh period, in seconds. */
  const RefreshInterval: nat := 300

  datatype Phase = Idle | Fetching | Ready

  /** The `fetch_progress` dictionary. */
  datatype Progress = Progress(markets: nat, rewards: nat, status: Phase)

  /** A `threading.Timer` handle: the `id`-th timer made, firing after `seconds`. */
  datatype Timer = Timer(id: nat, seconds: nat)

  /** The body of the `/api/markets` reply. */
  datatype MarketsReply = MarketsReply(
    markets: seq<Market>, totalCount: nat, lastUpdated: Option<string>,
    isRefreshing: bool, progress: Progress, rewardsCount: nat)

  /** The body of the `/api/status` reply. */
  datatype StatusReply = StatusReply(isRefreshing: bool, progress: Progress, totalCount: nat, rewardsCount: nat)

  /** The `/api/refresh` reply: the body is always `{"status": "started"}`; `spawned` says
      whether the handler started a thread that calls `StartFullRefresh`. */
  datatype RefreshReply = RefreshReply(status: string, spawned: bool)

  /** The market records with their rewards flags set from `slugs`. */
  function WithRewards(ms: seq<Market>, slugs: set<string>): seq<Market> {
    seq(|ms|, i requires 0 <= i < |ms| => ms[i].(hasRewards := ms[i].slug in slugs))
  }

  /** Marking keeps the records' number and order and every field but the flag, and flags
      exactly the records whose slug is in the set. A second marking with the same set changes
      nothing. */
  lemma WithRewardsMeaning(ms: seq<Market>, slugs: set<string>)
    ensures |WithRewards(ms, slugs)| == |ms|
    ensures forall i :: 0 <= i < |ms| ==>
      && (WithRewards(ms, slugs)[i].hasRewards <==> ms[i].slug in slugs)
      && WithRewards(ms, slugs)[i].(hasRewards := false) == ms[i].(hasRewards := false)
    ensures WithRewards(WithRewards(ms, slugs), slugs) == WithRewards(ms, slugs)
  {
  }

  /** The per-record loop of `_combine_data`: sets each record's flag in turn. */
  method MarkRewards(ms: seq<Market>, slugs: set<string>) returns (r: seq<Market>)
    ensures r == WithRewards(ms, slugs)
  {
    r := ms;
    for i := 0 to |r|
      invariant |r| == |ms|
      invariant r[..i] == WithRewards(ms, slugs)[..i]
      invariant r[i..] == ms[i..]
    {
      r := r[i := r[i].(hasRewards := r[i].slug in slugs)];
    }
  }

  class MarketsMonitor {
    var markets: seq<Market>
    var cachedMarkets: seq<Market>
    var lastUpdated: Option<string>
    var rewardsSlugs: set<string>
    var isFetchingMarkets: bool
    var isFetchingRewards: bool
    var fetchProgress: Progress
    /** `refresh_timer`: the handle the monitor holds, if any. */
    var refreshTimer: Option<Timer>
    /** The timers started and neither cancelled nor fired yet. */
    var pendingTimers: set<Timer>
    /** How many timers have been made (the next timer's id). */
    var timersIssued: nat
    /** `_temp_markets` and `_temp_rewards_slugs`: None while the attribute does not exist. */
    var tempMarkets: Option<seq<Market>>
    var tempRewards: Option<set<string>>

    function Held(): set<Timer>
      reads this
    {
      if refreshTimer.Some? then {refreshTimer.value} else {}
    }

    /** Only the held timer can be pending, so at most one auto-refresh is ever scheduled,
        and every timer was made by this monitor. */
    ghost predicate Valid()
      reads this
    {
      && pendingTimers <= Held()
      && (refreshTimer.Some? ==> refreshTimer.value.id < timersIssued)
    }

    /** `is_refreshing` of the handlers: either fetch is under way. */
    function Refreshing(): bool
      reads this
    {
      isFetchingMarkets || isFetchingRewards
    }

    constructor ()
      ensures Valid()
      ensures markets == [] && cachedMarkets == [] && lastUpdated == None && rewardsSlugs == {}
      ensures !isFetchingMarkets && !isFetchingRewards
      ensures fetchProgress == Progress(0, 0, Idle)
      ensures refreshTimer == None && pendingTimers == {} && timersIssued == 0
      ensures tempMarkets == None && tempRewards == None
    {
      markets := [];
      cachedMarkets := [];
      lastUpdated := None;
      rewardsSlugs := {};
      isFetchingMarkets := false;
      isFetchingRewards := false;
      fetchProgress := Progress(0, 0, Idle);
      refreshTimer := None;
      pendingTimers := {};
      timersIssued := 0;
      tempMarkets := None;
      tempRewards := None;
    }

    /** Cancels the held timer, if any, and drops it. Calling it again changes nothing. */
    method CancelAutoRefresh()
      requires Valid()
      modifies this`refreshTimer, this`pendingTimers
      ensures Valid()
      ensures refreshTimer == None
      ensures pendingTimers == {}
    {
      if refreshTimer.Some? {
        pendingTimers := pendingTimers - {refreshTimer.value};
        refreshTimer := None;
      }
    }

    /** Cancels the held timer and arms a new one: afterwards exactly one timer is pending,
        the new one, which fires after `RefreshInterval` seconds. */
    method StartAutoRefresh()
      requires Valid()
      modifies this`refreshTimer, this`pendingTimers, this`timersIssued
      ensures Valid()
      ensures refreshTimer == Some(Timer(old(timersIssued), RefreshInterval))
      ensures pendingTimers == {refreshTimer.value}
      ensures timersIssued == old(timersIssued) + 1
    {
      CancelAutoRefresh();
      var t := Timer(timersIssued, RefreshInterval);
      timersIssued := timersIssued + 1;
      refreshTimer := Some(t);
      pendingTimers := {t};
    }

    /** Starts a refresh cycle unless a fetch is under way; in that case nothing changes.
        A start copies the current records into the cache when there are any, re-arms the
        timer and resets the progress. The fetch flags are not set here: the worker threads
        set them, so a second start before they do goes ahead too. */
    method StartFullRefresh() returns (started: bool)
      requires Valid()
      modifies this`cachedMarkets, this`refreshTimer, this`pendingTimers, this`timersIssued, this`fetchProgress
      ensures Valid()
      ensures started == !old(Refreshing())
      ensures !started ==>
        && cachedMarkets == old(cachedMarkets) && refreshTimer == old(refreshTimer)
        && pendingTimers == old(pendingTimers) && timersIssued == old(timersIssued)
        && fetchProgress == old(fetchProgress)
      ensures started ==>
        && cachedMarkets == (if old(markets) != [] then old(markets) else old(cachedMarkets))
        && refreshTimer == Some(Timer(old(timersIssued), RefreshInterval))
        && pendingTimers == {refreshTimer.value}
        && timersIssued == old(timersIssued) + 1
        && fetchProgress == Progress(0, 0, Fetching)
    {
      if isFetchingMarkets || isFetchingRewards {
        return false;
      }
      if markets != [] {
        cachedMarkets := markets;
      }
      StartAutoRefresh();
      fetchProgress := Progress(0, 0, Fetching);
      started := true;
    }

    /** Timer `t` fires and calls `StartFullRefresh`. When a fetch is under way the start does
        nothing, so no timer is left pending. */
    method AutoRefresh(t: Timer) returns (started: bool)
      requires Valid() && t in pendingTimers
      modifies this`cachedMarkets, this`refreshTimer, this`pendingTimers, this`timersIssued, this`fetchProgress
      ensures Valid()
      ensures started == !old(Refreshing())
      ensures !started ==>
        && pendingTimers == {}
        && cachedMarkets == old(cachedMarkets) && refreshTimer == old(refreshTimer)
        && timersIssued == old(timersIssued) && fetchProgress == old(fetchProgress)
      ensures started ==>
        && cachedMarkets == (if old(markets) != [] then old(markets) else old(cachedMarkets))
        && refreshTimer == Some(Timer(old(timersIssued), RefreshInterval))
        && pendingTimers == {Timer(old(timersIssued), RefreshInterval)}
        && timersIssued == old(timersIssued) + 1
        && fetchProgress == Progress(0, 0, Fetching)
    {
      pendingTimers := pendingTimers - {t};
      started := StartFullRefresh();
    }

    /** A timer firing with a corrected handler: when a fetch is under way it re-arms the timer
        instead of doing nothing, so one timer is pending afterwards in every case. */
    method AutoRefreshRearming(t: Timer) returns (started: bool)
      requires Valid() && t in pendingTimers
      modifies this`cachedMarkets, this`refreshTimer, this`pendingTimers, this`timersIssued, this`fetchProgress
      ensures Valid()
      ensures started == !old(Refreshing())
      ensures refreshTimer == Some(Timer(old(timersIssued), RefreshInterval))
      ensures pendingTimers == {Timer(old(timersIssued), RefreshInterval)}
      ensures timersIssued == old(timersIssued) + 1
      ensures !started ==> cachedMarkets == old(cachedMarkets) && fetchProgress == old(fetchProgress)
      ensures started ==>
        && cachedMarkets == (if old(markets) != [] then old(markets) else old(cachedMarkets))
        && fetchProgress == Progress(0, 0, Fetching)
    {
      pendingTimers := pendingTimers - {t};
      if isFetchingMarkets || isFetchingRewards {
        StartAutoRefresh();
        started := false;
      } else {
        started := StartFullRefresh();
      }
    }

    /** The markets worker thread starts: it sets its flag. */
    method EnterMarketsThread()
      modifies this`isFetchingMarkets
      ensures isFetchingMarkets
    {
      isFetchingMarkets := true;
    }

    /** The markets worker thread ends (its `finally` clause). */
    method LeaveMarketsThread()
      modifies this`isFetchingMarkets
      ensures !isFetchingMarkets
    {
      isFetchingMarkets := false;
    }

    /** The rewards worker thread starts: it sets its flag. */
    method EnterRewardsThread()
      modifies this`isFetchingRewards
      ensures isFetchingRewards
    {
      isFetchingRewards := true;
    }

    /** The rewards worker thread ends (its `finally` clause). */
    method LeaveRewardsThread()
      modifies this`isFetchingRewards
      ensures !isFetchingRewards
    {
      isFetchingRewards := false;
    }

    /** The Gamma listing walk: requests offsets 0, 100, 200, ... (request `k` is answered by
        `pages[k]`), normalises each page, and stops on a failed request, an empty page, a
        page that raised or a short page. The records gathered are stored as the temporary
        result; the markets counter shows the number gathered before the last page. */
    method FetchAllMarkets(pages: seq<PageResult<RawEvent>>) returns (ghost offsets: seq<nat>)
      modifies this`tempMarkets, this`fetchProgress
      ensures tempMarkets == Some(GammaWalk(pages).records)
      ensures fetchProgress == old(fetchProgress).(markets := fetchProgress.markets)
      ensures fetchProgress.markets + GammaWalk(pages).lastPage == |GammaWalk(pages).records|
      ensures |offsets| == GammaWalk(pages).requests
      ensures forall j :: 0 <= j < |offsets| ==> offsets[j] == PageLimit * j
    {
      var all: seq<Market> := [];
      var offset: nat := 0;
      var k: nat := 0;  // the number of the request, offset / 100
      offsets := [];
      ghost var walk := GammaWalk(pages);
      assert [] + walk.records == walk.records;
      while true
        invariant k <= |pages| && offset == PageLimit * k
        invariant |offsets| == k && forall j :: 0 <= j < k ==> offsets[j] == PageLimit * j
        invariant all + GammaFrom(pages, k).records == walk.records
        invariant GammaFrom(pages, k).requests == walk.requests && GammaFrom(pages, k).lastPage == walk.lastPage
        invariant fetchProgress == old(fetchProgress).(markets := fetchProgress.markets)
        decreases |pages| - k
      {
        fetchProgress := fetchProgress.(markets := |all|);
        offsets := offsets + [offset];
        var records, full := FetchPage(pages, k);
        ghost var before := all;
        all := all + records;
        GammaFromStep(pages, k);
        if !full {
          break;
        }
        assert before + (records + GammaFrom(pages, k + 1).records) == all + GammaFrom(pages, k + 1).records;
        offset := offset + PageLimit;
        k := k + 1;
      }
      tempMarkets := Some(all);
    }

    /** The rewards walk over pages 1 to 50 (page `n` is answered by `pages[n - 1]`, with the
        page's links), with the page script run on each page. Without Playwright, or when the
        browser does not start or open its page, the result is the empty set (a failing
        `browser.close` is caught after the walk and changes nothing); otherwise it is the walk's slug
        set, and the rewards counter shows the count before the last page. */
    method FetchRewardsSlugs(installed: bool, launched: bool, pages: seq<PageResult<string>>)
      modifies this`tempRewards, this`fetchProgress
      ensures tempRewards == Some(if installed && launched then RewardsWalk(pages).slugs else {})
      ensures fetchProgress == old(fetchProgress).(
        rewards := if installed && launched then RewardsWalk(pages).progress else old(fetchProgress).rewards)
    {
      if !installed {
        tempRewards := Some({});
        return;
      }
      var rewards: set<string> := {};
      if launched {
        ghost var shown: nat := fetchProgress.rewards;
        ghost var walk := RewardsFrom(Scripted(pages), 1, None, {}, shown);
        RewardsFromStart(Scripted(pages), shown);
        var pageNum: nat := 1;
        var first: Option<set<string>> := None;
        while pageNum <= MaxPages
          invariant 1 <= pageNum <= MaxPages + 1
          invariant fetchProgress == old(fetchProgress).(rewards := shown)
          invariant RewardsFrom(Scripted(pages), pageNum, first, rewards, shown) == walk
          decreases MaxPages + 1 - pageNum
        {
          ghost var shownBefore := shown;
          shown := |rewards|;
          fetchProgress := fetchProgress.(rewards := |rewards|);
          var done;
          done, first, rewards := VisitRewardsPage(pages, pageNum, first, rewards, shownBefore, walk);
          if done {
            break;
          }
          pageNum := pageNum + 1;
        }
        if pageNum > MaxPages {
          RewardsFromCap(Scripted(pages), first, rewards, shown);
        }
      }
      tempRewards := Some(rewards);
    }

    /** `_combine_data`: takes the temporary results (an absent one counts as empty), keeps the
        previous rewards set when the new one is empty, marks the records, publishes them,
        reports the counts as ready and drops the temporary results. */
    method CombineData(now: string)
      modifies this`markets, this`rewardsSlugs, this`lastUpdated, this`fetchProgress, this`tempMarkets, this`tempRewards
      ensures rewardsSlugs == (if old(tempRewards.GetOr({})) != {} then old(tempRewards.GetOr({})) else old(rewardsSlugs))
      ensures markets == WithRewards(old(tempMarkets.GetOr([])), rewardsSlugs)
      ensures lastUpdated == Some(now)
      ensures fetchProgress == Progress(|markets|, |rewardsSlugs|, Ready)
      ensures tempMarkets == None && tempRewards == None
    {
      var fetched := tempMarkets.GetOr([]);
      var slugs := tempRewards.GetOr({});
      if slugs != {} {
        rewardsSlugs := slugs;
      }
      fetched := MarkRewards(fetched, rewardsSlugs);
      markets := fetched;
      lastUpdated := Some(now);
      fetchProgress := Progress(|fetched|, |rewardsSlugs|, Ready);
      tempMarkets := None;
      tempRewards := None;
    }

    /** The records `/api/markets` serves: the cached ones while a fetch is under way and the
        cache is not empty, the current ones otherwise. */
    function Served(): (r: seq<Market>)
      reads this
      ensures Refreshing() && cachedMarkets != [] ==> r == cachedMarkets
      ensures !Refreshing() || cachedMarkets == [] ==> r == markets
    {
      if Refreshing() && cachedMarkets != [] then cachedMarkets else markets
    }

    /** The `/api/markets` reply: the served records and their count, the rewards set's size. */
    function MarketsEndpoint(): (r: MarketsReply)
      reads this
      ensures r.markets == Served() && r.totalCount == |r.markets|
      ensures r.isRefreshing == Refreshing() && r.progress == fetchProgress
      ensures r.lastUpdated == lastUpdated && r.rewardsCount == |rewardsSlugs|
    {
      var served := Served();
      MarketsReply(served, |served|, lastUpdated, Refreshing(), fetchProgress, |rewardsSlugs|)
    }

    /** The `/api/status` reply: counts the current records, not the served ones. */
    function StatusEndpoint(): (r: StatusReply)
      reads this
      ensures r.totalCount == |markets| && r.rewardsCount == |rewardsSlugs|
      ensures r.isRefreshing == Refreshing() && r.progress == fetchProgress
    {
      StatusReply(Refreshing(), fetchProgress, |markets|, |rewardsSlugs|)
    }

    /** The `/api/refresh` reply: always "started"; a thread calling `StartFullRefresh` is
        spawned exactly when no fetch is under way. */
    function RefreshEndpoint(): (r: RefreshReply)
      reads this
      ensures r.status == "started"
      ensures r.spawned <==> !isFetchingMarkets && !isFetchingRewards
    {
      RefreshReply("started", !Refreshing())
    }

    /** A refresh starts and both workers set their flags: from then on until the data is
        combined, `/api/markets` serves the records that were current before the start
        whenever there were any (and the older cache otherwise, if it is not empty). */
    method BeginCycle() returns (started: bool)
      requires Valid() && !Refreshing()
      modifies this`cachedMarkets, this`refreshTimer, this`pendingTimers, this`timersIssued, this`fetchProgress,
               this`isFetchingMarkets, this`isFetchingRewards
      ensures Valid() && started && Refreshing()
      ensures old(markets) != [] ==> Served() == old(markets)
      ensures old(markets) == [] && old(cachedMarkets) != [] ==> Served() == old(cachedMarkets)
      ensures markets == old(markets) && fetchProgress == Progress(0, 0, Fetching)
      ensures |pendingTimers| == 1
    {
      started := StartFullRefresh();
      EnterMarketsThread();
      EnterRewardsThread();
    }

    /** Both workers run to the end and the data is combined: the records are the Gamma walk's
        records, marked with the new rewards set, or with the previous one when the new walk
        found nothing. */
    method FinishCycle(listing: seq<PageResult<RawEvent>>, installed: bool, launched: bool,
                       rewardPages: seq<PageResult<string>>, now: string)
      modifies this`tempMarkets, this`tempRewards, this`fetchProgress, this`markets, this`rewardsSlugs,
               this`lastUpdated, this`isFetchingMarkets, this`isFetchingRewards
      ensures !Refreshing()
      ensures var found := if installed && launched then RewardsWalk(rewardPages).slugs else {};
        rewardsSlugs == (if found != {} then found else old(rewardsSlugs))
      ensures markets == WithRewards(GammaWalk(listing).records, rewardsSlugs)
      ensures fetchProgress == Progress(|markets|, |rewardsSlugs|, Ready) && lastUpdated == Some(now)
      ensures cachedMarkets == old(cachedMarkets) && tempMarkets == None && tempRewards == None
    {
      ghost var offsets := FetchAllMarkets(listing);
      LeaveMarketsThread();
      FetchRewardsSlugs(installed, launched, rewardPages);
      LeaveRewardsThread();
      CombineData(now);
    }

    /** Two starts in a row, as two quick `/api/refresh` requests can cause before the workers
        set their flags: both go ahead, so two cycles are under way and two timers were made. */
    method DoubleStart() returns (first: bool, second: bool)
      requires Valid() && !Refreshing()
      modifies this`cachedMarkets, this`refreshTimer, this`pendingTimers, this`timersIssued, this`fetchProgress
      ensures Valid() && first && second
      ensures timersIssued == old(timersIssued) + 2
      ensures pendingTimers == {Timer(old(timersIssued) + 1, RefreshInterval)}
    {
      first := StartFullRefresh();
      second := StartFullRefresh();
    }
  }
}
