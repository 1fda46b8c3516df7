/** The rewards source of the markets dashboard: the script run in each rewards page, which
    turns the page's `/event/` links into market slugs, and the specification of the walk over
    the numbered rewards pages. The walk itself is the method
    `MarketsMonitor.FetchRewardsSlugs` in module Dashboard. */
module RewardsSlugs {
  import opened Common
  import opened Text

  /** The walk visits at most 50 pages. */
  const MaxPages: nat := 50

  /** A page with fewer than 80 slugs is taken to be the last one. */
  const FullPageSlugs: nat := 80

  /** The market slug one link yields: the last `/`-segment of the text after `/event/` (up to
      `?`), or "" when the link has no such text. */
  function MarketSlugOf(href: string): string {
    match EventPath(href)
    case None => ""
    case Some(path) => LastSegment(path)
  }

  /** The slug of each link, in document order. */
  function LinkSlugs(hrefs: seq<string>): (r: seq<string>)
    ensures |r| == |hrefs| && forall i :: 0 <= i < |hrefs| ==> r[i] == MarketSlugOf(hrefs[i])
  {
    seq(|hrefs|, i requires 0 <= i < |hrefs| => MarketSlugOf(hrefs[i]))
  }

  /** No string occurs twice in `r`. */
  predicate Distinct(r: seq<string>) {
    forall a, b :: 0 <= a < b < |r| ==> r[a] != r[b]
  }

  /** `xs` without empty strings and without repeats, each kept at its first occurrence. */
  function Dedup(xs: seq<string>): seq<string> {
    if xs == [] then []
    else
      var prev := Dedup(xs[..|xs| - 1]);
      var x := xs[|xs| - 1];
      if x != "" && x !in prev then prev + [x] else prev
  }

  /** The slugs the page script returns for the links `hrefs`. */
  function PageSlugs(hrefs: seq<string>): seq<string> {
    Dedup(LinkSlugs(hrefs))
  }

  /** `Dedup` keeps each non-empty string of its input, and nothing else. */
  lemma {:induction false} DedupMembers(xs: seq<string>)
    ensures forall s :: s in Dedup(xs) <==> s != "" && s in xs
  {
    if xs != [] {
      var n := |xs| - 1;
      DedupMembers(xs[..n]);
      assert xs == xs[..n] + [xs[n]];
    }
  }

  /** `Dedup` keeps each string at most once. */
  lemma {:induction false} DedupDistinct(xs: seq<string>)
    ensures Distinct(Dedup(xs))
  {
    if xs != [] {
      var prev := Dedup(xs[..|xs| - 1]);
      DedupDistinct(xs[..|xs| - 1]);
      var x := xs[|xs| - 1];
      if x != "" && x !in prev {
        var r := prev + [x];
        forall a, b | 0 <= a < b < |r| ensures r[a] != r[b] {
          if b == |prev| {
            assert r[a] == prev[a];
          } else {
            assert r[a] == prev[a] && r[b] == prev[b];
          }
        }
      }
    }
  }

  /** `x` occurs in `xs` before `y` first does. */
  ghost predicate FirstBefore(xs: seq<string>, x: string, y: string) {
    exists i :: 0 <= i < |xs| && xs[i] == x && y !in xs[..i + 1]
  }

  /** `Dedup` keeps the strings in the order of their first occurrences: of two kept strings
      the earlier one occurs in the input before the later one first does. */
  lemma {:induction false} DedupOrder(xs: seq<string>)
    ensures forall a, b :: 0 <= a < b < |Dedup(xs)| ==> FirstBefore(xs, Dedup(xs)[a], Dedup(xs)[b])
  {
    if xs != [] {
      var n := |xs| - 1;
      var init := xs[..n];
      DedupOrder(init);
      DedupMembers(init);
      var prev := Dedup(init);
      var r := Dedup(xs);
      forall a, b | 0 <= a < b < |r| ensures FirstBefore(xs, r[a], r[b]) {
        assert r[a] == prev[a];
        if b < |prev| {
          assert r[b] == prev[b];
          assert FirstBefore(init, prev[a], prev[b]);
          var i :| 0 <= i < |init| && init[i] == prev[a] && prev[b] !in init[..i + 1];
          assert xs[..i + 1] == init[..i + 1];
          assert xs[i] == r[a];
        } else {
          assert r[b] == xs[n] && xs[n] !in prev;
          assert r[a] in init;
          var i :| 0 <= i < n && init[i] == r[a];
          assert xs[..i + 1] == init[..i + 1];
          assert r[b] !in init;
          assert forall y :: y in init[..i + 1] ==> y in init;
          assert xs[i] == r[a];
        }
      }
    }
  }

  /** The page script's result holds each non-empty slug of the page exactly once, and in
      the order in which the slugs first appear among the links. */
  lemma PageSlugsMeaning(hrefs: seq<string>)
    ensures var r := PageSlugs(hrefs);
      && Distinct(r)
      && (forall s :: s in r <==> s != "" && s in LinkSlugs(hrefs))
      && (forall a, b :: 0 <= a < b < |r| ==> FirstBefore(LinkSlugs(hrefs), r[a], r[b]))
  {
    DedupMembers(LinkSlugs(hrefs));
    DedupDistinct(LinkSlugs(hrefs));
    DedupOrder(LinkSlugs(hrefs));
  }

  /** One step of `Dedup`: the strings of `xs[..i + 1]` are those of `xs[..i]` and `xs[i]`. */
  lemma DedupStep(xs: seq<string>, i: nat)
    requires i < |xs|
    ensures Dedup(xs[..i + 1]) ==
      if xs[i] != "" && xs[i] !in Dedup(xs[..i]) then Dedup(xs[..i]) + [xs[i]] else Dedup(xs[..i])
  {
    assert xs[..i + 1][..i] == xs[..i];
  }

  /** The page script, as it runs: a `forEach` over the links with a `seen` set. */
  method ExtractSlugs(hrefs: seq<string>) returns (slugs: seq<string>)
    ensures slugs == PageSlugs(hrefs)
  {
    slugs := [];
    var seen: set<string> := {};
    ghost var all := LinkSlugs(hrefs);
    for i := 0 to |hrefs|
      invariant slugs == Dedup(all[..i])
      invariant forall x :: x in seen <==> x in slugs
    {
      var slug := "";
      var path := EventPath(hrefs[i]);
      if path.Some? {
        slug := LastSegment(path.value);
      }
      assert slug == all[i];
      DedupStep(all, i);
      if slug != "" && slug !in seen {
        seen := seen + {slug};
        slugs := slugs + [slug];
      }
    }
    assert all[..|hrefs|] == all;
  }

  // ---------------------------------------------------------------------------------------
  // The rewards page walk

  /** Why the walk stopped. */
  datatype RewardsStop = PageError | LoopDetected | PartialPage | PageCap

  /** The outcome of the walk: the slugs gathered, how many pages were requested, the last
      value written to the `rewards` progress counter, and why the walk stopped. */
  datatype RewardsRun = RewardsRun(slugs: set<string>, pagesVisited: nat, progress: nat, stop: RewardsStop)

  /** What the page script reports for each page: the oracle `pages` answers each request for
      a page with the page's links (or an error), and the script turns the links into slugs. */
  function Scripted(pages: seq<PageResult<string>>): (r: seq<PageResult<string>>)
    ensures |r| == |pages|
    ensures forall k :: 0 <= k < |pages| ==> r[k] == (if pages[k].Ok? then Ok(PageSlugs(pages[k].items)) else Fail)
  {
    seq(|pages|, k requires 0 <= k < |pages| => if pages[k].Ok? then Ok(PageSlugs(pages[k].items)) else Fail)
  }

  /** Requests page `n` and runs the page script on it: the slugs the script reports, or
      `ok` false when the request failed. */
  method FetchSlugPage(pages: seq<PageResult<string>>, n: nat) returns (ok: bool, slugs: seq<string>)
    requires n >= 1
    ensures PageAt(Scripted(pages), n - 1) == if ok then Ok(slugs) else Fail
  {
    var answer := PageAt(pages, n - 1);
    if answer.Fail? {
      return false, [];
    }
    ok := true;
    slugs := ExtractSlugs(answer.items);
  }

  /** The slug set of page `m` (pages are numbered from 1; `slugPages[m - 1]` is what the page
      script reported for page `m`). */
  function PageSet(slugPages: seq<PageResult<string>>, m: nat): set<string>
    requires m >= 1
  {
    match PageAt(slugPages, m - 1)
    case Fail => {}
    case Ok(slugs) => SetOf(slugs)
  }

  /** The walk from page `n` on, with `first` the slug set of page 1 once it has been seen,
      `acc` the slugs gathered so far and `progress` the counter's current value. */
  function RewardsFrom(slugPages: seq<PageResult<string>>, n: nat, first: Option<set<string>>,
                       acc: set<string>, progress: nat): RewardsRun
    requires 1 <= n
    decreases MaxPages + 1 - n
  {
    if n > MaxPages then RewardsRun(acc, MaxPages, progress, PageCap)
    else
      var shown := |acc|;
      match PageAt(slugPages, n - 1)
      case Fail => RewardsRun(acc, n, shown, PageError)
      case Ok(slugs) =>
        var pageSet := SetOf(slugs);
        if n != 1 && first.Some? && first.value != {} && pageSet == first.value then
          RewardsRun(acc, n, shown, LoopDetected)
        else if |slugs| < FullPageSlugs then RewardsRun(acc + pageSet, n, shown, PartialPage)
        else RewardsFrom(slugPages, n + 1, if n == 1 then Some(pageSet) else first, acc + pageSet, shown)
  }

  /** One page of the walk, when page `n` failed. */
  lemma RewardsFromFail(slugPages: seq<PageResult<string>>, n: nat, first: Option<set<string>>,
                        acc: set<string>, progress: nat)
    requires 1 <= n <= MaxPages && PageAt(slugPages, n - 1) == Fail
    ensures RewardsFrom(slugPages, n, first, acc, progress) == RewardsRun(acc, n, |acc|, PageError)
  {
  }

  /** One page of the walk, when page `n` answered with `slugs`. */
  lemma RewardsFromOk(slugPages: seq<PageResult<string>>, n: nat, first: Option<set<string>>,
                      acc: set<string>, progress: nat, slugs: seq<string>)
    requires 1 <= n <= MaxPages && PageAt(slugPages, n - 1) == Ok(slugs)
    ensures RewardsFrom(slugPages, n, first, acc, progress) ==
      if n != 1 && first.Some? && first.value != {} && SetOf(slugs) == first.value then
        RewardsRun(acc, n, |acc|, LoopDetected)
      else if |slugs| < FullPageSlugs then RewardsRun(acc + SetOf(slugs), n, |acc|, PartialPage)
      else RewardsFrom(slugPages, n + 1, if n == 1 then Some(SetOf(slugs)) else first, acc + SetOf(slugs), |acc|)
  {
  }

  /** The counter's value before page 1 plays no part in the walk: page 1 overwrites it. */
  lemma RewardsFromStart(slugPages: seq<PageResult<string>>, progress: nat)
    ensures RewardsFrom(slugPages, 1, None, {}, progress) == RewardsFrom(slugPages, 1, None, {}, 0)
  {
  }

  /** Past page 50 the walk has hit the cap. */
  lemma RewardsFromCap(slugPages: seq<PageResult<string>>, first: Option<set<string>>, acc: set<string>, progress: nat)
    ensures RewardsFrom(slugPages, MaxPages + 1, first, acc, progress) == RewardsRun(acc, MaxPages, progress, PageCap)
  {
  }

  /** `for s in slugs: rewards_slugs.add(s)` (and the same loop building one page's set). */
  method AddAll(acc: set<string>, slugs: seq<string>) returns (r: set<string>)
    ensures r == acc + SetOf(slugs)
  {
    r := acc;
    for i := 0 to |slugs|
      invariant forall x :: x in r <==> x in acc || x in slugs[..i]
    {
      assert slugs[..i + 1] == slugs[..i] + [slugs[i]];
      r := r + {slugs[i]};
    }
    assert slugs[..|slugs|] == slugs;
  }

  /** The body of the walk's loop for page `n`: requests the page, runs the page script,
      records page 1's set, and adds the page's slugs unless the page failed or repeats
      page 1. `done` says the loop stops at this page. */
  method VisitRewardsPage(pages: seq<PageResult<string>>, n: nat, first: Option<set<string>>, acc: set<string>,
                          ghost progress: nat, ghost walk: RewardsRun)
    returns (done: bool, first': Option<set<string>>, acc': set<string>)
    requires 1 <= n <= MaxPages
    requires RewardsFrom(Scripted(pages), n, first, acc, progress) == walk
    ensures done ==> walk.slugs == acc' && walk.progress == |acc|
    ensures !done ==> RewardsFrom(Scripted(pages), n + 1, first', acc', |acc|) == walk
  {
    var ok, slugs := FetchSlugPage(pages, n);
    if !ok {
      RewardsFromFail(Scripted(pages), n, first, acc, progress);
      return true, first, acc;
    }
    RewardsFromOk(Scripted(pages), n, first, acc, progress, slugs);
    var pageSet := AddAll({}, slugs);
    first' := first;
    if n == 1 {
      first' := Some(pageSet);
    } else if first.Some? && first.value != {} && pageSet == first.value {
      return true, first, acc;
    }
    acc' := AddAll(acc, slugs);
    done := |slugs| < FullPageSlugs;
  }

  /** The whole rewards walk over the pages' links, from page 1. */
  function RewardsWalk(pages: seq<PageResult<string>>): RewardsRun {
    RewardsFrom(Scripted(pages), 1, None, {}, 0)
  }

  /** The union of the slug sets of pages 1 to `m`. */
  function PagesUnion(slugPages: seq<PageResult<string>>, m: nat): set<string> {
    if m == 0 then {} else PagesUnion(slugPages, m - 1) + PageSet(slugPages, m)
  }

  /** After page `m` the walk goes on: the page answered with at least 80 slugs and, unless it
      is page 1, its set differs from page 1's (non-empty) set. */
  ghost predicate GoesOnAfter(slugPages: seq<PageResult<string>>, m: nat)
    requires m >= 1
  {
    && PageAt(slugPages, m - 1).Ok?
    && |PageAt(slugPages, m - 1).items| >= FullPageSlugs
    && (m == 1 || PageSet(slugPages, 1) == {} || PageSet(slugPages, m) != PageSet(slugPages, 1))
  }

  /** What ends the walk at its last page, and which pages' slugs it keeps. */
  ghost predicate StoppedRightly(slugPages: seq<PageResult<string>>, r: RewardsRun)
    requires r.pagesVisited >= 1
  {
    var last := r.pagesVisited;
    match r.stop
    case PageError => PageAt(slugPages, last - 1) == Fail && r.slugs == PagesUnion(slugPages, last - 1)
    case LoopDetected =>
      && last >= 2 && PageAt(slugPages, last - 1).Ok?
      && PageSet(slugPages, 1) != {} && PageSet(slugPages, last) == PageSet(slugPages, 1)
      && r.slugs == PagesUnion(slugPages, last - 1)
    case PartialPage =>
      && PageAt(slugPages, last - 1).Ok? && |PageAt(slugPages, last - 1).items| < FullPageSlugs
      && r.slugs == PagesUnion(slugPages, last)
    case PageCap => last == MaxPages && GoesOnAfter(slugPages, last) && r.slugs == PagesUnion(slugPages, last)
  }

  /** From page `n` on, the walk requests pages `n` to its last page, and goes on after each
      page before the last. */
  lemma {:induction false} RewardsFromPages(slugPages: seq<PageResult<string>>, n: nat, first: Option<set<string>>,
                                            acc: set<string>, progress: nat)
    requires 1 <= n <= MaxPages + 1
    requires n == 1 ==> first == None
    requires n > 1 ==> first == Some(PageSet(slugPages, 1))
    ensures var r := RewardsFrom(slugPages, n, first, acc, progress);
      && 1 <= r.pagesVisited <= MaxPages
      && (n <= MaxPages ==> n <= r.pagesVisited)
      && (forall m :: n <= m < r.pagesVisited ==> GoesOnAfter(slugPages, m))
    decreases MaxPages + 1 - n
  {
    if n <= MaxPages {
      match PageAt(slugPages, n - 1)
      case Fail =>
        RewardsFromFail(slugPages, n, first, acc, progress);
      case Ok(slugs) =>
        RewardsFromOk(slugPages, n, first, acc, progress, slugs);
        var pageSet := SetOf(slugs);
        assert PageSet(slugPages, n) == pageSet;
        if n != 1 && first.Some? && first.value != {} && pageSet == first.value {
        } else if |slugs| < FullPageSlugs {
        } else {
          var first' := if n == 1 then Some(pageSet) else first;
          assert GoesOnAfter(slugPages, n);
          RewardsFromPages(slugPages, n + 1, first', acc + pageSet, |acc|);
        }
    }
  }

  /** The four ways the walk can stop at page `n`, each as `StoppedRightly` describes it. */
  lemma StopsOnError(slugPages: seq<PageResult<string>>, n: nat, acc: set<string>)
    requires 1 <= n <= MaxPages && PageAt(slugPages, n - 1) == Fail && acc == PagesUnion(slugPages, n - 1)
    ensures StoppedRightly(slugPages, RewardsRun(acc, n, |acc|, PageError))
  {
  }

  lemma StopsOnLoop(slugPages: seq<PageResult<string>>, n: nat, acc: set<string>, slugs: seq<string>)
    requires 2 <= n <= MaxPages && PageAt(slugPages, n - 1) == Ok(slugs) && acc == PagesUnion(slugPages, n - 1)
    requires PageSet(slugPages, 1) != {} && SetOf(slugs) == PageSet(slugPages, 1)
    ensures StoppedRightly(slugPages, RewardsRun(acc, n, |acc|, LoopDetected))
  {
    assert PageSet(slugPages, n) == SetOf(slugs);
  }

  lemma StopsOnPartial(slugPages: seq<PageResult<string>>, n: nat, acc: set<string>, slugs: seq<string>)
    requires 1 <= n <= MaxPages && PageAt(slugPages, n - 1) == Ok(slugs) && acc == PagesUnion(slugPages, n - 1)
    requires |slugs| < FullPageSlugs
    ensures StoppedRightly(slugPages, RewardsRun(acc + SetOf(slugs), n, |acc|, PartialPage))
  {
    assert PageSet(slugPages, n) == SetOf(slugs);
  }

  lemma StopsOnCap(slugPages: seq<PageResult<string>>, acc: set<string>, progress: nat)
    requires acc == PagesUnion(slugPages, MaxPages) && GoesOnAfter(slugPages, MaxPages)
    ensures StoppedRightly(slugPages, RewardsRun(acc, MaxPages, progress, PageCap))
  {
  }

  /** From page `n` on, the walk's last page and its result are as `StoppedRightly` says. */
  lemma {:induction false} RewardsFromStop(slugPages: seq<PageResult<string>>, n: nat, first: Option<set<string>>,
                                            acc: set<string>, progress: nat)
    requires 1 <= n <= MaxPages + 1
    requires acc == PagesUnion(slugPages, n - 1)
    requires n == 1 ==> first == None
    requires n > 1 ==> first == Some(PageSet(slugPages, 1)) && GoesOnAfter(slugPages, n - 1)
    ensures var r := RewardsFrom(slugPages, n, first, acc, progress);
      && 1 <= r.pagesVisited <= MaxPages
      && StoppedRightly(slugPages, r)
    decreases MaxPages + 1 - n
  {
    if n <= MaxPages {
      match PageAt(slugPages, n - 1)
      case Fail =>
        RewardsFromFail(slugPages, n, first, acc, progress);
        StopsOnError(slugPages, n, acc);
      case Ok(slugs) =>
        RewardsFromOk(slugPages, n, first, acc, progress, slugs);
        var pageSet := SetOf(slugs);
        assert PageSet(slugPages, n) == pageSet;
        if n != 1 && first.Some? && first.value != {} && pageSet == first.value {
          StopsOnLoop(slugPages, n, acc, slugs);
        } else if |slugs| < FullPageSlugs {
          StopsOnPartial(slugPages, n, acc, slugs);
        } else {
          var first' := if n == 1 then Some(pageSet) else first;
          assert GoesOnAfter(slugPages, n);
          RewardsFromStop(slugPages, n + 1, first', acc + pageSet, |acc|);
        }
    } else {
      StopsOnCap(slugPages, acc, progress);
    }
  }

  /** The rewards walk visits between 1 and 50 pages; every page before the last answered
      with at least 80 slugs and was not a repeat of page 1; the last page failed (its slugs,
      if any, are not kept), repeated page 1's set (and is not added), was short (and is
      added), or was page 50. The result is the union of the pages added. */
  lemma RewardsWalkShape(pages: seq<PageResult<string>>)
    ensures var r := RewardsWalk(pages);
      && 1 <= r.pagesVisited <= MaxPages
      && (forall m :: 1 <= m < r.pagesVisited ==> GoesOnAfter(Scripted(pages), m))
      && StoppedRightly(Scripted(pages), r)
  {
    RewardsFromPages(Scripted(pages), 1, None, {}, 0);
    RewardsFromStop(Scripted(pages), 1, None, {}, 0);
  }

  /** The counter's last value is the number of slugs the pages before the last page
      requested gave. */
  ghost predicate ShowsEarlierPages(slugPages: seq<PageResult<string>>, r: RewardsRun) {
    r.pagesVisited >= 1 && r.progress == |PagesUnion(slugPages, r.pagesVisited - 1)|
  }

  /** From page `n` on, the counter's last value is the number of slugs gathered from the
      pages before the last page requested. */
  lemma {:induction false} RewardsFromProgress(slugPages: seq<PageResult<string>>, n: nat, first: Option<set<string>>,
                                                acc: set<string>, progress: nat)
    requires 1 <= n <= MaxPages + 1
    requires acc == PagesUnion(slugPages, n - 1)
    requires n > 1 ==> progress == |PagesUnion(slugPages, n - 2)|
    ensures ShowsEarlierPages(slugPages, RewardsFrom(slugPages, n, first, acc, progress))
    decreases MaxPages + 1 - n
  {
    if n <= MaxPages {
      match PageAt(slugPages, n - 1)
      case Fail =>
        RewardsFromFail(slugPages, n, first, acc, progress);
        ShowsPagesBefore(slugPages, n, acc, acc, PageError);
      case Ok(slugs) =>
        RewardsFromOk(slugPages, n, first, acc, progress, slugs);
        var pageSet := SetOf(slugs);
        if n != 1 && first.Some? && first.value != {} && pageSet == first.value {
          ShowsPagesBefore(slugPages, n, acc, acc, LoopDetected);
        } else if |slugs| < FullPageSlugs {
          ShowsPagesBefore(slugPages, n, acc, acc + pageSet, PartialPage);
        } else {
          assert PageSet(slugPages, n) == pageSet;
          var first' := if n == 1 then Some(pageSet) else first;
          RewardsFromProgress(slugPages, n + 1, first', acc + pageSet, |acc|);
        }
    } else {
      RewardsFromCap(slugPages, first, acc, progress);
    }
  }

  /** A walk that stops at page `n` having shown the slugs of the pages before it. */
  lemma ShowsPagesBefore(slugPages: seq<PageResult<string>>, n: nat, acc: set<string>, slugs: set<string>,
                         stop: RewardsStop)
    requires n >= 1 && acc == PagesUnion(slugPages, n - 1)
    ensures ShowsEarlierPages(slugPages, RewardsRun(slugs, n, |acc|, stop))
  {
  }

  /** The rewards counter the walk leaves shows how many distinct slugs the pages before the
      last page requested gave. */
  lemma RewardsWalkProgress(pages: seq<PageResult<string>>)
    ensures ShowsEarlierPages(Scripted(pages), RewardsWalk(pages))
  {
    RewardsFromProgress(Scripted(pages), 1, None, {}, 0);
  }
}
