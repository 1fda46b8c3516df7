/** The first-generation rewards monitor: the script run in each rewards page, which turns the
    page's `/event/` links into entries (slug, shortened question, link), the walk over up to
    100 rewards pages that gathers the entries by condition id, and the monitor object the
    HTTP endpoints read. */
module V1Scraper {
  import opened Common
  import opened Text

  // ---------------------------------------------------------------------------------------
  // The page script

  /** An `<a>` element whose href contains `/event/`: its `href` and its `textContent`. */
  datatype Link = Link(href: string, text: string)

  /** One market entry as the page script reports it (the image, spread and price fields it
      also reads off the DOM are not modelled). */
  datatype Entry = Entry(marketSlug: string, question: string, conditionId: string, url: string)

  /** The words the question text is cut at, in the order they are tried. */
  const Cutoffs: seq<string> := ["Max Spread", "Min", "Total", "Earnings", "Price", "Yes", "No", "±"]

  /** Questions of at most this many characters are dropped. */
  const MinQuestionLength: nat := 5

  /** One cutoff step: `q` up to the first occurrence of `c`, when that occurrence is not at
      the very start; `q` itself otherwise. */
  function CutAt(q: string, c: string): (r: string)
    ensures |r| <= |q| && r == q[..|r|]
  {
    var idx := IndexOf(q, c);
    if idx > 0 then q[..idx] else q
  }

  /** The cutoffs `cs` applied in order. */
  function CutAll(q: string, cs: seq<string>): (r: string)
    ensures |r| <= |q| && r == q[..|r|]
  {
    if cs == [] then q else CutAt(CutAll(q, cs[..|cs| - 1]), cs[|cs| - 1])
  }

  /** The question the script derives from a link text. */
  function Question(text: string): string {
    Trim(CutAll(text, Cutoffs))
  }

  /** A cutoff step keeps the question when `c` occurs at its very start or nowhere;
      otherwise it ends the question just before the first occurrence of `c`. Either way the
      first occurrence of `c` left, if any, is at the very start. */
  lemma CutAtMeaning(q: string, c: string)
    ensures CutAt(q, c) == q <==> OccursAt(q, c, 0) || forall j: nat :: !OccursAt(q, c, j)
    ensures CutAt(q, c) != q ==>
      && 0 < |CutAt(q, c)| && OccursAt(q, c, |CutAt(q, c)|)
      && forall j: nat :: j < |CutAt(q, c)| ==> !OccursAt(q, c, j)
    ensures IndexOf(CutAt(q, c), c) <= 0
  {
    var r := CutAt(q, c);
    var idx := IndexOf(q, c);
    IndexOfMeaning(q, c);
    IndexOfMeaning(r, c);
    if idx > 0 {
      assert |r| == idx < |q|;
      assert !OccursAt(q, c, 0);
      assert |c| > 0;
      forall j: nat | j + |c| <= |r| ensures !OccursAt(r, c, j) {
        assert !OccursAt(q, c, j);
        assert r[j..j + |c|] == q[j..j + |c|];
      }
    }
  }

  /** Taking a prefix keeps the first occurrence of `c` at the start or nowhere. */
  lemma PrefixIndex(q: string, p: string, c: string)
    requires |p| <= |q| && p == q[..|p|]
    requires IndexOf(q, c) <= 0
    ensures IndexOf(p, c) <= 0
  {
    IndexOfMeaning(q, c);
    IndexOfMeaning(p, c);
    if IndexOf(q, c) == -1 {
      forall j: nat | j + |c| <= |p| ensures !OccursAt(p, c, j) {
        assert !OccursAt(q, c, j);
        assert p[j..j + |c|] == q[j..j + |c|];
      }
    } else if |c| <= |p| {
      assert p[0..|c|] == q[0..|c|];
      assert OccursAt(p, c, 0);
    }
  }

  /** The cut text ends where one of the cutoffs `cs` occurs in `q`, past its start. */
  ghost predicate CutEndsAtCutoff(q: string, cs: seq<string>) {
    0 < |CutAll(q, cs)| && exists k :: 0 <= k < |cs| && OccursAt(q, cs[k], |CutAll(q, cs)|)
  }

  /** After the cutoffs, the first occurrence of each of them in the text, if any, is at its
      very start, and the text is either the whole input or ends where one of the cutoffs
      occurs in the input. */
  lemma CutAllMeaning(q: string, cs: seq<string>)
    ensures forall k :: 0 <= k < |cs| ==> IndexOf(CutAll(q, cs), cs[k]) <= 0
    ensures CutAll(q, cs) == q || CutEndsAtCutoff(q, cs)
  {
    CutAllEnds(q, cs);
    CutAllClean(q, cs);
  }

  /** The cut text is the whole text or ends at an occurrence of one of the cutoffs. */
  lemma {:induction false} CutAllEnds(q: string, cs: seq<string>)
    ensures CutAll(q, cs) == q || CutEndsAtCutoff(q, cs)
  {
    if cs != [] {
      var n := |cs| - 1;
      var prev := CutAll(q, cs[..n]);
      CutAllEnds(q, cs[..n]);
      CutAtMeaning(prev, cs[n]);
      var r := CutAll(q, cs);
      if r == prev {
        if prev != q {
          var k :| 0 <= k < n && OccursAt(q, cs[..n][k], |prev|);
          assert cs[..n][k] == cs[k];
        }
      } else {
        assert q[|r|..|r| + |cs[n]|] == prev[|r|..|r| + |cs[n]|];
        assert OccursAt(q, cs[n], |r|);
      }
    }
  }

  /** The first occurrence in the cut text of each cutoff tried, if any, is at its very start. */
  lemma {:induction false} CutAllClean(q: string, cs: seq<string>)
    ensures forall k :: 0 <= k < |cs| ==> IndexOf(CutAll(q, cs), cs[k]) <= 0
  {
    if cs != [] {
      var n := |cs| - 1;
      var prev := CutAll(q, cs[..n]);
      CutAllClean(q, cs[..n]);
      CutAtMeaning(prev, cs[n]);
      forall k | 0 <= k < n ensures IndexOf(CutAll(q, cs), cs[k]) <= 0 {
        assert cs[k] == cs[..n][k];
        PrefixIndex(prev, CutAll(q, cs), cs[k]);
      }
    }
  }

  /** The question is the cut prefix of the link text with its JavaScript white space trimmed
      off both ends; in the cut prefix the first occurrence of each cutoff word, if any, is at
      the very start, and the prefix is the whole text or ends where a cutoff word occurs. */
  lemma QuestionMeaning(text: string)
    ensures exists a: nat :: TrimmedAt(CutAll(text, Cutoffs), Question(text), a)
    ensures Question(text) != [] ==> !IsJsSpace(Question(text)[0]) && !IsJsSpace(Question(text)[|Question(text)| - 1])
    ensures |CutAll(text, Cutoffs)| <= |text| && CutAll(text, Cutoffs) == text[..|CutAll(text, Cutoffs)|]
    ensures forall c :: c in Cutoffs ==> IndexOf(CutAll(text, Cutoffs), c) <= 0
    ensures CutAll(text, Cutoffs) == text || CutEndsAtCutoff(text, Cutoffs)
  {
    CutAllMeaning(text, Cutoffs);
    TrimMeaning(CutAll(text, Cutoffs));
    assert Question(text) == Trim(CutAll(text, Cutoffs));
  }

  /** The script's cutoff loop and `trim`. */
  method TruncateQuestion(text: string) returns (q: string)
    ensures q == Question(text)
  {
    q := text;
    for k := 0 to |Cutoffs|
      invariant q == CutAll(text, Cutoffs[..k])
    {
      assert Cutoffs[..k + 1][..k] == Cutoffs[..k];
      var idx := IndexOf(q, Cutoffs[k]);
      if idx > 0 {
        q := q[..idx];
      }
    }
    assert Cutoffs[..|Cutoffs|] == Cutoffs;
    q := Trim(q);
  }

  /** `match ? match[1] : ''`: the text after `/event/` up to `?`, or "". */
  function FullSlug(href: string): string {
    match EventPath(href)
    case None => ""
    case Some(path) => path
  }

  /** What the script reads off one link: its full slug, the question from its text, and
      its href. */
  datatype Candidate = Candidate(full: string, question: string, href: string)

  function CandidateOf(link: Link): Candidate {
    Candidate(FullSlug(link.href), Question(link.text), link.href)
  }

  function Candidates(links: seq<Link>): (r: seq<Candidate>)
    ensures |r| == |links| && forall i :: 0 <= i < |links| ==> r[i] == CandidateOf(links[i])
  {
    seq(|links|, i requires 0 <= i < |links| => CandidateOf(links[i]))
  }

  /** The entry made from a candidate. */
  function EntryOf(c: Candidate): Entry {
    Entry(c.full, c.question, c.full, c.href)
  }

  /** The script's state after some links: the full slugs seen and the entries kept. */
  datatype Scan = Scan(seen: set<string>, entries: seq<Entry>)

  /** The script's `forEach` over the links' candidates: one without a full slug, or with one
      seen before, is passed over; otherwise its slug is marked seen, and an entry is kept
      when the question is longer than 5 characters. */
  function ScanFrom(cs: seq<Candidate>): Scan {
    if cs == [] then Scan({}, [])
    else
      var prev := ScanFrom(cs[..|cs| - 1]);
      var c := cs[|cs| - 1];
      if c.full == "" || c.full in prev.seen then prev
      else Scan(prev.seen + {c.full}, if |c.question| > MinQuestionLength then prev.entries + [EntryOf(c)] else prev.entries)
  }

  /** The entries the page script returns for the links of a page. */
  function PageEntries(links: seq<Link>): seq<Entry> {
    ScanFrom(Candidates(links)).entries
  }

  /** Candidate `i` is the first with full slug `s`. */
  ghost predicate FirstWithSlug(cs: seq<Candidate>, i: int, s: string) {
    0 <= i < |cs| && cs[i].full == s && forall j :: 0 <= j < i ==> cs[j].full != s
  }

  /** The seen set is the set of non-empty full slugs. */
  lemma {:induction false} ScanSeen(cs: seq<Candidate>)
    ensures forall s :: s in ScanFrom(cs).seen <==> s != "" && exists i :: 0 <= i < |cs| && cs[i].full == s
  {
    if cs != [] {
      var n := |cs| - 1;
      var init := cs[..n];
      ScanSeen(init);
      forall s ensures s in ScanFrom(cs).seen <==> s != "" && exists i :: 0 <= i < |cs| && cs[i].full == s {
        if s != "" && s != cs[n].full && exists i :: 0 <= i < |cs| && cs[i].full == s {
          var i :| 0 <= i < |cs| && cs[i].full == s;
          assert init[i] == cs[i];
        }
        if s in ScanFrom(init).seen {
          var i :| 0 <= i < |init| && init[i].full == s;
          assert cs[i] == init[i];
        }
      }
    }
  }

  /** Every entry is made from the first candidate with its slug, whose question is longer
      than 5 characters, and its slug is marked seen. */
  lemma {:induction false} ScanEntries(cs: seq<Candidate>)
    ensures forall e :: e in ScanFrom(cs).entries ==>
      && e.conditionId in ScanFrom(cs).seen && |e.question| > MinQuestionLength
      && exists i :: FirstWithSlug(cs, i, e.conditionId) && e == EntryOf(cs[i])
  {
    if cs != [] {
      var n := |cs| - 1;
      var init := cs[..n];
      ScanEntries(init);
      ScanSeen(init);
      var prev := ScanFrom(init);
      forall e | e in ScanFrom(cs).entries
        ensures exists i :: FirstWithSlug(cs, i, e.conditionId) && e == EntryOf(cs[i])
      {
        if e in prev.entries {
          var i :| FirstWithSlug(init, i, e.conditionId) && e == EntryOf(init[i]);
          assert cs[i] == init[i];
          forall j | 0 <= j < i ensures cs[j].full != e.conditionId {
            assert cs[j] == init[j];
          }
        } else {
          assert e == EntryOf(cs[n]) && cs[n].full !in prev.seen;
          forall j | 0 <= j < n ensures cs[j].full != cs[n].full {
            assert init[j] == cs[j];
          }
        }
      }
    }
  }

  /** Two entries never share a condition id. */
  ghost predicate DistinctIds(es: seq<Entry>) {
    forall a, b :: 0 <= a < b < |es| ==> es[a].conditionId != es[b].conditionId
  }

  lemma {:induction false} ScanDistinct(cs: seq<Candidate>)
    ensures DistinctIds(ScanFrom(cs).entries)
  {
    if cs != [] {
      var n := |cs| - 1;
      ScanDistinct(cs[..n]);
      ScanEntries(cs[..n]);
      var prev := ScanFrom(cs[..n]);
      var r := ScanFrom(cs).entries;
      if r != prev.entries {
        forall a, b | 0 <= a < b < |r| ensures r[a].conditionId != r[b].conditionId {
          if b == |prev.entries| {
            assert r[a] in prev.entries;
          } else {
            assert r[a] == prev.entries[a] && r[b] == prev.entries[b];
          }
        }
      }
    }
  }

  /** The first candidate with a slug yields an entry when its question is long enough. */
  lemma {:induction false} ScanComplete(cs: seq<Candidate>, i: nat)
    requires i < |cs| && cs[i].full != "" && FirstWithSlug(cs, i, cs[i].full)
    requires |cs[i].question| > MinQuestionLength
    ensures EntryOf(cs[i]) in ScanFrom(cs).entries
    decreases |cs|
  {
    var n := |cs| - 1;
    var init := cs[..n];
    if i == n {
      ScanSeen(init);
      forall j | 0 <= j < |init| ensures init[j].full != cs[n].full {
        assert init[j] == cs[j];
      }
    } else {
      assert init[i] == cs[i];
      forall j | 0 <= j < i ensures init[j].full != init[i].full {
        assert init[j] == cs[j];
      }
      ScanComplete(init, i);
    }
  }

  /** The link `i` is the first on the page with full slug `s`. */
  ghost predicate FirstLinkWithSlug(links: seq<Link>, i: int, s: string) {
    0 <= i < |links| && FullSlug(links[i].href) == s && forall j :: 0 <= j < i ==> FullSlug(links[j].href) != s
  }

  /** The entry the script makes from a link. */
  function LinkEntry(link: Link): Entry {
    EntryOf(CandidateOf(link))
  }

  /** Candidate `i` yields an entry: it is the first candidate with its non-empty full slug
      and its question is longer than 5 characters. */
  ghost predicate Qualifies(cs: seq<Candidate>, i: int) {
    0 <= i < |cs| && cs[i].full != "" && FirstWithSlug(cs, i, cs[i].full) && |cs[i].question| > MinQuestionLength
  }

  /** The entries of the qualifying candidates among the first `k`, in document order. */
  ghost function QualifyingEntries(cs: seq<Candidate>, k: nat): seq<Entry>
    requires k <= |cs|
  {
    if k == 0 then []
    else QualifyingEntries(cs, k - 1) + if Qualifies(cs, k - 1) then [EntryOf(cs[k - 1])] else []
  }

  /** Candidate `k` is unseen after the candidates before it exactly when it is the first
      with its slug. */
  lemma UnseenIsFirst(cs: seq<Candidate>, k: nat)
    requires k < |cs|
    ensures cs[k].full !in ScanFrom(cs[..k]).seen <==> cs[k].full == "" || FirstWithSlug(cs, k, cs[k].full)
  {
    var init := cs[..k];
    ScanSeen(init);
    if cs[k].full != "" && cs[k].full !in ScanFrom(init).seen {
      forall j | 0 <= j < k ensures cs[j].full != cs[k].full {
        assert init[j] == cs[j];
      }
    } else if cs[k].full != "" {
      var j :| 0 <= j < |init| && init[j].full == cs[k].full;
      assert cs[j] == init[j];
    }
  }

  /** The script's scan of the first `k` candidates keeps exactly the qualifying candidates'
      entries, in document order. */
  lemma {:induction false} ScanInOrder(cs: seq<Candidate>, k: nat)
    requires k <= |cs|
    ensures ScanFrom(cs[..k]).entries == QualifyingEntries(cs, k)
  {
    if k > 0 {
      ScanInOrder(cs, k - 1);
      UnseenIsFirst(cs, k - 1);
      assert cs[..k][..k - 1] == cs[..k - 1];
      assert cs[..k][k - 1] == cs[k - 1];
    }
  }

  lemma PageEntriesQualifying(links: seq<Link>)
    ensures PageEntries(links) == QualifyingEntries(Candidates(links), |links|)
  {
    var cs := Candidates(links);
    assert cs[..|cs|] == cs;
    ScanInOrder(cs, |cs|);
  }

  lemma {:induction false} QualifyingNone(cs: seq<Candidate>, k: nat)
    requires k <= |cs|
    ensures QualifyingEntries(cs, k) == [] <==> forall j :: 0 <= j < k ==> !Qualifies(cs, j)
  {
    if k > 0 {
      QualifyingNone(cs, k - 1);
    }
  }

  lemma {:induction false} QualifyingFirst(cs: seq<Candidate>, k: nat, i: nat)
    requires i < k <= |cs| && Qualifies(cs, i) && forall j :: 0 <= j < i ==> !Qualifies(cs, j)
    ensures QualifyingEntries(cs, k) != [] && QualifyingEntries(cs, k)[0] == EntryOf(cs[i])
  {
    if k > i + 1 {
      QualifyingFirst(cs, k - 1, i);
    } else {
      QualifyingNone(cs, i);
    }
  }

  /** A page's entries are the qualifying links' entries in document order; they have distinct
      condition ids, each equal to its market slug (the full slug, not its last segment),
      non-empty, with a question longer than 5 characters, and each made from the first link
      with that slug. */
  lemma PageEntriesSound(links: seq<Link>)
    ensures PageEntries(links) == QualifyingEntries(Candidates(links), |links|)
    ensures DistinctIds(PageEntries(links))
    ensures forall e :: e in PageEntries(links) ==>
      && e.conditionId == e.marketSlug && e.conditionId != ""
      && |e.question| > MinQuestionLength
      && exists i :: FirstLinkWithSlug(links, i, e.conditionId) && e == LinkEntry(links[i])
  {
    PageEntriesQualifying(links);
    var cs := Candidates(links);
    ScanDistinct(cs);
    ScanEntries(cs);
    ScanSeen(cs);
    forall e | e in PageEntries(links)
      ensures exists i :: FirstLinkWithSlug(links, i, e.conditionId) && e == LinkEntry(links[i])
    {
      var i :| FirstWithSlug(cs, i, e.conditionId) && e == EntryOf(cs[i]);
      assert FirstLinkWithSlug(links, i, e.conditionId);
    }
  }

  /** The first link with a non-empty full slug yields an entry when its question is longer
      than 5 characters. */
  lemma PageEntriesComplete(links: seq<Link>, i: nat)
    requires i < |links| && FullSlug(links[i].href) != "" && FirstLinkWithSlug(links, i, FullSlug(links[i].href))
    requires |Question(links[i].text)| > MinQuestionLength
    ensures LinkEntry(links[i]) in PageEntries(links)
  {
    var cs := Candidates(links);
    assert FirstWithSlug(cs, i, cs[i].full);
    ScanComplete(cs, i);
  }

  /** The page's first entry, which the loop-back test compares with page 1's, is made from the
      first qualifying link; a page has no entries exactly when no link qualifies. */
  lemma PageFirstEntry(links: seq<Link>)
    ensures PageEntries(links) == [] <==> forall i :: 0 <= i < |links| ==> !Qualifies(Candidates(links), i)
    ensures forall i :: Qualifies(Candidates(links), i) && (forall j :: 0 <= j < i ==> !Qualifies(Candidates(links), j)) ==>
      PageEntries(links) != [] && PageEntries(links)[0] == LinkEntry(links[i])
  {
    var cs := Candidates(links);
    PageEntriesQualifying(links);
    QualifyingNone(cs, |links|);
    forall i | Qualifies(cs, i) && (forall j :: 0 <= j < i ==> !Qualifies(cs, j))
      ensures PageEntries(links) != [] && PageEntries(links)[0] == LinkEntry(links[i])
    {
      QualifyingFirst(cs, |links|, i);
    }
  }

  /** The page script, as it runs: a `forEach` over the links with a `seen` set. */
  method ExtractEntries(links: seq<Link>) returns (markets: seq<Entry>)
    ensures markets == PageEntries(links)
  {
    markets := [];
    var seen: set<string> := {};
    ghost var cs := Candidates(links);
    for i := 0 to |links|
      invariant Scan(seen, markets) == ScanFrom(cs[..i])
    {
      assert cs[..i + 1][..i] == cs[..i];
      var href := links[i].href;
      var full := "";
      var path := EventPath(href);
      if path.Some? {
        full := path.value;
      }
      assert full == cs[i].full;
      if full != "" && full !in seen {
        seen := seen + {full};
        var question := TruncateQuestion(links[i].text);
        if |question| > MinQuestionLength {
          markets := markets + [Entry(full, question, full, href)];
        }
      }
    }
    assert cs[..|links|] == cs;
  }

  // ---------------------------------------------------------------------------------------
  // The walk over the rewards pages

  /** The walk visits at most 100 pages. */
  const MaxScrapePages: nat := 100

  /** A page with fewer than 90 entries is taken to be the last one. */
  const FullPageEntries: nat := 90

  /** The entries gathered so far and the condition ids seen (`all_markets`, `seen_ids`). */
  datatype Gathered = Gathered(entries: seq<Entry>, seen: set<string>)

  /** The "add new markets" loop: appends each entry whose condition id is non-empty and not
      seen yet, and marks the id seen. */
  function AddNew(g: Gathered, data: seq<Entry>): Gathered {
    if data == [] then g
    else
      var prev := AddNew(g, data[..|data| - 1]);
      var m := data[|data| - 1];
      if m.conditionId != "" && m.conditionId !in prev.seen then Gathered(prev.entries + [m], prev.seen + {m.conditionId})
      else prev
  }

  /** Entry `k` of `data` is new: its id is non-empty, not in `seen` and not the id of an
      earlier entry of `data`. */
  ghost predicate FreshAt(seen: set<string>, data: seq<Entry>, k: int) {
    && 0 <= k < |data| && data[k].conditionId != "" && data[k].conditionId !in seen
    && forall j :: 0 <= j < k ==> data[j].conditionId != data[k].conditionId
  }

  /** The new entries among the first `k` of `data`, in the order of `data`. */
  ghost function FreshEntries(seen: set<string>, data: seq<Entry>, k: nat): seq<Entry>
    requires k <= |data|
  {
    if k == 0 then []
    else FreshEntries(seen, data, k - 1) + if FreshAt(seen, data, k - 1) then [data[k - 1]] else []
  }

  /** Adding the first `k` entries of `data` adds their non-empty ids to the seen set. */
  lemma {:induction false} AddNewPrefixSeen(g: Gathered, data: seq<Entry>, k: nat)
    requires k <= |data|
    ensures forall x :: x in AddNew(g, data[..k]).seen <==>
      x in g.seen || (x != "" && exists j :: 0 <= j < k && data[j].conditionId == x)
  {
    if k > 0 {
      AddNewPrefixSeen(g, data, k - 1);
      assert data[..k][..k - 1] == data[..k - 1];
      assert data[..k][k - 1] == data[k - 1];
      forall x ensures x in AddNew(g, data[..k]).seen <==>
        x in g.seen || (x != "" && exists j :: 0 <= j < k && data[j].conditionId == x)
      {
        if x != "" && x !in g.seen && (exists j :: 0 <= j < k && data[j].conditionId == x) && x != data[k - 1].conditionId {
          var j :| 0 <= j < k && data[j].conditionId == x;
          assert j < k - 1;
        }
      }
    }
  }

  /** Adding the first `k` entries of `data` appends their new entries in order. */
  lemma {:induction false} AddNewPrefix(g: Gathered, data: seq<Entry>, k: nat)
    requires k <= |data|
    ensures AddNew(g, data[..k]).entries == g.entries + FreshEntries(g.seen, data, k)
  {
    if k > 0 {
      AddNewPrefix(g, data, k - 1);
      AddNewPrefixSeen(g, data, k - 1);
      assert data[..k][..k - 1] == data[..k - 1];
      var prev := AddNew(g, data[..k - 1]);
      var m := data[..k][k - 1];
      assert m == data[k - 1];
      if m.conditionId != "" && m.conditionId !in prev.seen {
        assert FreshAt(g.seen, data, k - 1);
      } else if m.conditionId != "" {
        if m.conditionId !in g.seen {
          var j :| 0 <= j < k - 1 && data[j].conditionId == m.conditionId;
        }
        assert !FreshAt(g.seen, data, k - 1);
      }
    }
  }

  /** Adding a page appends exactly its new entries, in the page's order, and adds the page's
      non-empty ids to the seen set. */
  lemma AddNewOrder(g: Gathered, data: seq<Entry>)
    ensures AddNew(g, data).entries == g.entries + FreshEntries(g.seen, data, |data|)
    ensures forall x :: x in AddNew(g, data).seen <==>
      x in g.seen || (x != "" && exists j :: 0 <= j < |data| && data[j].conditionId == x)
  {
    AddNewPrefix(g, data, |data|);
    AddNewPrefixSeen(g, data, |data|);
    assert data[..|data|] == data;
  }

  /** The seen ids are exactly the ids of the gathered entries, which are non-empty and
      distinct. */
  ghost predicate Consistent(g: Gathered) {
    && (forall x :: x in g.seen <==> exists e :: e in g.entries && e.conditionId == x)
    && (forall e :: e in g.entries ==> e.conditionId != "")
    && DistinctIds(g.entries)
  }

  /** Adding a page keeps the gathered list consistent. */
  lemma {:induction false} AddNewConsistent(g: Gathered, data: seq<Entry>)
    requires Consistent(g)
    ensures Consistent(AddNew(g, data))
  {
    if data != [] {
      var n := |data| - 1;
      AddNewConsistent(g, data[..n]);
      var prev := AddNew(g, data[..n]);
      var m := data[n];
      var r := AddNew(g, data);
      if m.conditionId != "" && m.conditionId !in prev.seen {
        assert r.entries == prev.entries + [m];
        forall x ensures x in r.seen <==> exists e :: e in r.entries && e.conditionId == x {
          if x in prev.seen {
            var e :| e in prev.entries && e.conditionId == x;
            assert e in r.entries;
          }
        }
        forall a, b | 0 <= a < b < |r.entries| ensures r.entries[a].conditionId != r.entries[b].conditionId {
          if b == |prev.entries| {
            assert r.entries[a] in prev.entries;
          } else {
            assert r.entries[a] == prev.entries[a] && r.entries[b] == prev.entries[b];
          }
        }
      }
    }
  }

  /** Adding a page only appends: the earlier entries stay, in order, each appended entry
      comes from the page and had a new id, the appended part is the page's new entries in
      the page's order, and the seen set only grows. */
  lemma {:induction false} AddNewAppends(g: Gathered, data: seq<Entry>)
    ensures g.seen <= AddNew(g, data).seen
    ensures |g.entries| <= |AddNew(g, data).entries| && AddNew(g, data).entries[..|g.entries|] == g.entries
    ensures forall k :: |g.entries| <= k < |AddNew(g, data).entries| ==>
      AddNew(g, data).entries[k] in data && AddNew(g, data).entries[k].conditionId !in g.seen
    ensures AddNew(g, data).entries[|g.entries|..] == FreshEntries(g.seen, data, |data|)
  {
    AddNewOrder(g, data);
    if data != [] {
      var n := |data| - 1;
      AddNewAppends(g, data[..n]);
      var prev := AddNew(g, data[..n]);
      var r := AddNew(g, data);
      if r != prev {
        assert r.entries == prev.entries + [data[n]];
        assert r.entries[..|g.entries|] == prev.entries[..|g.entries|];
      }
      forall k | |g.entries| <= k < |r.entries|
        ensures r.entries[k] in data && r.entries[k].conditionId !in g.seen
      {
        if k < |prev.entries| {
          assert r.entries[k] == prev.entries[k];
          assert prev.entries[k] in data[..n];
        }
      }
    }
  }

  /** After adding a page, every non-empty id of the page has been seen. */
  lemma {:induction false} AddNewSeesAll(g: Gathered, data: seq<Entry>)
    ensures forall e :: e in data && e.conditionId != "" ==> e.conditionId in AddNew(g, data).seen
  {
    if data != [] {
      var n := |data| - 1;
      AddNewSeesAll(g, data[..n]);
      forall e | e in data && e.conditionId != "" ensures e.conditionId in AddNew(g, data).seen {
        if e != data[n] {
          assert e in data[..n];
        }
      }
    }
  }

  /** The per-page "add new markets" loop, as it runs. */
  method AddNewMarkets(all: seq<Entry>, seenIds: set<string>, data: seq<Entry>)
    returns (all': seq<Entry>, seenIds': set<string>)
    ensures Gathered(all', seenIds') == AddNew(Gathered(all, seenIds), data)
  {
    all', seenIds' := all, seenIds;
    for i := 0 to |data|
      invariant Gathered(all', seenIds') == AddNew(Gathered(all, seenIds), data[..i])
    {
      assert data[..i + 1][..i] == data[..i];
      var marketId := data[i].conditionId;
      if marketId != "" && marketId !in seenIds' {
        seenIds' := seenIds' + {marketId};
        all' := all' + [data[i]];
      }
    }
    assert data[..|data|] == data;
  }

  /** Why the walk stopped. */
  datatype ScrapeStop = ScrapeError | LoopedBack | LastPage | PageLimitReached

  /** The outcome of the walk: what was gathered, the final page number and the reason. */
  datatype ScrapeRun = ScrapeRun(gathered: Gathered, finalPage: nat, stop: ScrapeStop)

  /** What the page script reports for each page: the oracle answers each page request with
      the page's links (or an error), and the script turns them into entries. */
  function ScriptedEntries(pages: seq<PageResult<Link>>): (r: seq<PageResult<Entry>>)
    ensures |r| == |pages|
    ensures forall k :: 0 <= k < |pages| ==> r[k] == (if pages[k].Ok? then Ok(PageEntries(pages[k].items)) else Fail)
  {
    seq(|pages|, k requires 0 <= k < |pages| => if pages[k].Ok? then Ok(PageEntries(pages[k].items)) else Fail)
  }

  /** The walk from page `n` on (`entryPages[n - 1]` answers page `n`), with `first` the
      condition id of page 1's first entry once page 1 has been seen with entries. */
  function ScrapeFrom(entryPages: seq<PageResult<Entry>>, n: nat, first: Option<string>, g: Gathered): ScrapeRun
    requires n >= 1
    decreases MaxScrapePages + 1 - n
  {
    if n > MaxScrapePages then ScrapeRun(g, n, PageLimitReached)
    else
      match PageAt(entryPages, n - 1)
      case Fail => ScrapeRun(g, n, ScrapeError)
      case Ok(data) =>
        var first' := if n == 1 && data != [] then Some(data[0].conditionId) else first;
        if n > 1 && data != [] && first'.Some? && first'.value != "" && data[0].conditionId == first'.value then
          ScrapeRun(g, n, LoopedBack)
        else
          var g' := AddNew(g, data);
          if |data| < FullPageEntries then ScrapeRun(g', n, LastPage)
          else ScrapeFrom(entryPages, n + 1, first', g')
  }

  /** One page of the walk: the page after `n` is visited only when page `n` answered with a
      full page that does not repeat page 1. */
  lemma ScrapeStep(entryPages: seq<PageResult<Entry>>, n: nat, first: Option<string>, g: Gathered, data: seq<Entry>)
    requires 1 <= n <= MaxScrapePages && PageAt(entryPages, n - 1) == Ok(data)
    ensures var first' := if n == 1 && data != [] then Some(data[0].conditionId) else first;
      ScrapeFrom(entryPages, n, first, g) ==
        if n > 1 && data != [] && first'.Some? && first'.value != "" && data[0].conditionId == first'.value then
          ScrapeRun(g, n, LoopedBack)
        else if |data| < FullPageEntries then ScrapeRun(AddNew(g, data), n, LastPage)
        else ScrapeFrom(entryPages, n + 1, first', AddNew(g, data))
  {
  }

  /** One page of the walk, when page `n` failed. */
  lemma ScrapeFromFail(entryPages: seq<PageResult<Entry>>, n: nat, first: Option<string>, g: Gathered)
    requires 1 <= n <= MaxScrapePages && PageAt(entryPages, n - 1) == Fail
    ensures ScrapeFrom(entryPages, n, first, g) == ScrapeRun(g, n, ScrapeError)
  {
  }

  /** Requests page `n` and runs the page script on it: the entries the script reports, or
      `ok` false when the request failed. */
  method FetchEntryPage(pages: seq<PageResult<Link>>, n: nat) returns (ok: bool, data: seq<Entry>)
    requires n >= 1
    ensures PageAt(ScriptedEntries(pages), n - 1) == if ok then Ok(data) else Fail
  {
    var answer := PageAt(pages, n - 1);
    if answer.Fail? {
      return false, [];
    }
    ok := true;
    data := ExtractEntries(answer.items);
  }

  /** One pass of the page loop at page `n`: requests the page, checks for a loop back to
      page 1, adds the new entries and decides whether the walk ends here. When it ends,
      the walk's result is the state reached, at page `n`; otherwise the walk goes on from
      page `n + 1` in the new state. */
  method VisitEntryPage(pages: seq<PageResult<Link>>, n: nat, first: Option<string>, all: seq<Entry>,
                        seenIds: set<string>, ghost walk: ScrapeRun)
    returns (done: bool, first': Option<string>, all': seq<Entry>, seenIds': set<string>)
    requires 1 <= n <= MaxScrapePages
    requires ScrapeFrom(ScriptedEntries(pages), n, first, Gathered(all, seenIds)) == walk
    ensures done ==> walk.gathered == Gathered(all', seenIds') && walk.finalPage == n
    ensures !done ==> ScrapeFrom(ScriptedEntries(pages), n + 1, first', Gathered(all', seenIds')) == walk
  {
    var ok, data := FetchEntryPage(pages, n);
    if !ok {
      ScrapeFromFail(ScriptedEntries(pages), n, first, Gathered(all, seenIds));
      return true, first, all, seenIds;
    }
    ScrapeStep(ScriptedEntries(pages), n, first, Gathered(all, seenIds), data);
    first' := first;
    if n == 1 && data != [] {
      first' := Some(data[0].conditionId);
    }
    if n > 1 && data != [] && first'.Some? && first'.value != "" {
      if data[0].conditionId == first'.value {
        return true, first', all, seenIds;
      }
    }
    all', seenIds' := AddNewMarkets(all, seenIds, data);
    done := |data| < FullPageEntries;
  }

  /** Past page 100 the walk has reached its limit. */
  lemma ScrapeFromLimit(entryPages: seq<PageResult<Entry>>, first: Option<string>, g: Gathered)
    ensures ScrapeFrom(entryPages, MaxScrapePages + 1, first, g) == ScrapeRun(g, MaxScrapePages + 1, PageLimitReached)
  {
  }

  /** The whole walk, from page 1 with nothing gathered. */
  function ScrapeWalk(pages: seq<PageResult<Link>>): ScrapeRun {
    ScrapeFrom(ScriptedEntries(pages), 1, None, Gathered([], {}))
  }

  /** The entries of page `m`, or none when the request failed. */
  function PageData(entryPages: seq<PageResult<Entry>>, m: nat): seq<Entry>
    requires m >= 1
  {
    match PageAt(entryPages, m - 1)
    case Fail => []
    case Ok(data) => data
  }

  /** What pages 1 to `m` gather, added in page order. */
  function GatheredUpTo(entryPages: seq<PageResult<Entry>>, m: nat): Gathered {
    if m == 0 then Gathered([], {}) else AddNew(GatheredUpTo(entryPages, m - 1), PageData(entryPages, m))
  }

  /** The entries of pages 1 to `m`, one page after the other. */
  function DataUpTo(entryPages: seq<PageResult<Entry>>, m: nat): seq<Entry> {
    if m == 0 then [] else DataUpTo(entryPages, m - 1) + PageData(entryPages, m)
  }

  /** The first entry with each non-empty condition id, in order. */
  ghost function FirstSeen(d: seq<Entry>): seq<Entry> {
    FreshEntries({}, d, |d|)
  }

  /** `seen` is the set of non-empty condition ids of `d`. */
  ghost predicate SeenOf(seen: set<string>, d: seq<Entry>) {
    forall x :: x in seen <==> x != "" && exists j :: 0 <= j < |d| && d[j].conditionId == x
  }

  lemma {:induction false} FreshSame(seen: set<string>, a: seq<Entry>, b: seq<Entry>, k: nat)
    requires k <= |a| && k <= |b| && a[..k] == b[..k]
    ensures FreshEntries(seen, a, k) == FreshEntries(seen, b, k)
  {
    if k > 0 {
      assert a[..k - 1] == a[..k][..k - 1] && b[..k - 1] == b[..k][..k - 1];
      FreshSame(seen, a, b, k - 1);
      assert a[k - 1] == a[..k][k - 1] && b[k - 1] == b[..k][k - 1];
      forall j | 0 <= j < k - 1 ensures a[j] == b[j] {
        assert a[j] == a[..k][j] && b[j] == b[..k][j];
      }
    }
  }

  /** Entry `k` of `data` is new after `d` exactly when it is new with respect to the ids of
      `d`. */
  lemma FreshAfter(seen: set<string>, d: seq<Entry>, data: seq<Entry>, k: nat)
    requires SeenOf(seen, d) && k < |data|
    ensures FreshAt({}, d + data, |d| + k) <==> FreshAt(seen, data, k)
  {
    var m := data[k];
    assert (d + data)[|d| + k] == m;
    if FreshAt(seen, data, k) {
      forall j | 0 <= j < |d| + k ensures (d + data)[j].conditionId != m.conditionId {
        if j >= |d| {
          assert (d + data)[j] == data[j - |d|];
        }
      }
    } else if m.conditionId != "" {
      if m.conditionId in seen {
        var j :| 0 <= j < |d| && d[j].conditionId == m.conditionId;
        assert (d + data)[j] == d[j];
      } else {
        var j :| 0 <= j < k && data[j].conditionId == m.conditionId;
        assert (d + data)[|d| + j] == data[j];
      }
    }
  }

  /** The first-seen entries of `d + data` are those of `d` followed by the entries of `data`
      that are new with respect to the ids of `d`. */
  lemma {:induction false} FreshConcat(seen: set<string>, d: seq<Entry>, data: seq<Entry>, k: nat)
    requires SeenOf(seen, d) && k <= |data|
    ensures FreshEntries({}, d + data, |d| + k) == FreshEntries({}, d, |d|) + FreshEntries(seen, data, k)
  {
    if k == 0 {
      assert (d + data)[..|d|] == d[..|d|];
      FreshSame({}, d + data, d, |d|);
    } else {
      FreshConcat(seen, d, data, k - 1);
      FreshAfter(seen, d, data, k - 1);
      assert (d + data)[|d| + k - 1] == data[k - 1];
      var last := if FreshAt(seen, data, k - 1) then [data[k - 1]] else [];
      assert FreshEntries({}, d + data, |d| + k) == FreshEntries({}, d + data, |d| + k - 1) + last;
      assert FreshEntries(seen, data, k) == FreshEntries(seen, data, k - 1) + last;
    }
  }

  /** Adding the non-empty ids of `data` to the ids of `d` gives the ids of `d + data`. */
  lemma SeenConcat(seen: set<string>, d: seq<Entry>, data: seq<Entry>, seen': set<string>)
    requires SeenOf(seen, d)
    requires forall x :: x in seen' <==> x in seen || (x != "" && exists j :: 0 <= j < |data| && data[j].conditionId == x)
    ensures SeenOf(seen', d + data)
  {
    var all := d + data;
    forall x ensures x in seen' <==> x != "" && exists j :: 0 <= j < |all| && all[j].conditionId == x {
      if x != "" && (exists j :: 0 <= j < |all| && all[j].conditionId == x) {
        var j :| 0 <= j < |all| && all[j].conditionId == x;
        if j < |d| {
          assert all[j] == d[j];
        } else {
          assert all[j] == data[j - |d|];
        }
      }
      if x in seen {
        var j :| 0 <= j < |d| && d[j].conditionId == x;
        assert all[j] == d[j];
      } else if x in seen' {
        var j :| 0 <= j < |data| && data[j].conditionId == x;
        assert all[|d| + j] == data[j];
      }
    }
  }

  /** Adding `data` to what was gathered from the entries `d` gathers from `d + data`. */
  lemma AddNewFirstSeen(g: Gathered, d: seq<Entry>, data: seq<Entry>)
    requires g.entries == FirstSeen(d) && SeenOf(g.seen, d)
    ensures AddNew(g, data).entries == FirstSeen(d + data)
    ensures SeenOf(AddNew(g, data).seen, d + data)
  {
    AddNewOrder(g, data);
    FreshConcat(g.seen, d, data, |data|);
    assert |d + data| == |d| + |data|;
    SeenConcat(g.seen, d, data, AddNew(g, data).seen);
  }

  /** What pages 1 to `m` gather is the first entry with each non-empty id over their entries
      one page after the other, and the seen set is the set of those ids. */
  lemma {:induction false} GatheredFirstSeen(entryPages: seq<PageResult<Entry>>, m: nat)
    ensures GatheredUpTo(entryPages, m).entries == FirstSeen(DataUpTo(entryPages, m))
    ensures SeenOf(GatheredUpTo(entryPages, m).seen, DataUpTo(entryPages, m))
  {
    if m > 0 {
      GatheredFirstSeen(entryPages, m - 1);
      AddNewFirstSeen(GatheredUpTo(entryPages, m - 1), DataUpTo(entryPages, m - 1), PageData(entryPages, m));
    }
  }

  /** How many pages' entries the walk added: the final page's too only when it was the last
      page; 100 when the page limit ended the walk. */
  function PagesAdded(r: ScrapeRun): nat {
    match r.stop
    case LastPage => r.finalPage
    case PageLimitReached => MaxScrapePages
    case _ => if r.finalPage > 0 then r.finalPage - 1 else 0
  }

  /** The condition id of page 1's first entry, when page 1 answered with entries. */
  function FirstId(entryPages: seq<PageResult<Entry>>): Option<string> {
    if PageAt(entryPages, 0).Ok? && PageAt(entryPages, 0).items != [] then Some(PageAt(entryPages, 0).items[0].conditionId)
    else None
  }

  /** Page `m` is a repeat of page 1: a later page whose first condition id is page 1's. */
  ghost predicate LoopsBack(entryPages: seq<PageResult<Entry>>, m: nat)
    requires m >= 1
  {
    && m > 1 && PageData(entryPages, m) != []
    && FirstId(entryPages).Some? && FirstId(entryPages).value != ""
    && PageData(entryPages, m)[0].conditionId == FirstId(entryPages).value
  }

  /** After page `m` the walk goes on: the page answered with at least 90 entries and is not a
      repeat of page 1. */
  ghost predicate ScrapeGoesOn(entryPages: seq<PageResult<Entry>>, m: nat)
    requires m >= 1
  {
    && PageAt(entryPages, m - 1).Ok? && |PageData(entryPages, m)| >= FullPageEntries
    && !LoopsBack(entryPages, m)
  }

  /** What ends the walk at its final page, and what it has gathered then. */
  ghost predicate ScrapeStoppedRightly(entryPages: seq<PageResult<Entry>>, r: ScrapeRun)
    requires r.finalPage >= 1
  {
    var last := r.finalPage;
    match r.stop
    case ScrapeError => PageAt(entryPages, last - 1) == Fail && r.gathered == GatheredUpTo(entryPages, last - 1)
    case LoopedBack => PageAt(entryPages, last - 1).Ok? && LoopsBack(entryPages, last) && r.gathered == GatheredUpTo(entryPages, last - 1)
    case LastPage =>
      && PageAt(entryPages, last - 1).Ok? && |PageData(entryPages, last)| < FullPageEntries
      && !LoopsBack(entryPages, last) && r.gathered == GatheredUpTo(entryPages, last)
    case PageLimitReached => last == MaxScrapePages + 1 && r.gathered == GatheredUpTo(entryPages, MaxScrapePages)
  }

  /** The state the walk carries into page `n`. */
  ghost predicate ScrapeStateAt(entryPages: seq<PageResult<Entry>>, n: nat, first: Option<string>, g: Gathered)
    requires n >= 1
  {
    && g == GatheredUpTo(entryPages, n - 1)
    && (n == 1 ==> first == None)
    && (n > 1 ==> first == FirstId(entryPages) && ScrapeGoesOn(entryPages, n - 1))
  }

  /** From page `n` on, the walk ends at a page between `n` and 101 and goes on after each
      page before the final one. */
  lemma {:induction false} ScrapeFromPages(entryPages: seq<PageResult<Entry>>, n: nat, first: Option<string>, g: Gathered)
    requires 1 <= n <= MaxScrapePages + 1
    requires n == 1 ==> first == None
    requires n > 1 ==> first == FirstId(entryPages)
    ensures var r := ScrapeFrom(entryPages, n, first, g);
      && n <= r.finalPage <= MaxScrapePages + 1
      && (r.finalPage == MaxScrapePages + 1 <==> r.stop == PageLimitReached)
      && (forall m :: n <= m < r.finalPage ==> ScrapeGoesOn(entryPages, m))
    decreases MaxScrapePages + 1 - n
  {
    if n <= MaxScrapePages {
      match PageAt(entryPages, n - 1)
      case Fail =>
      case Ok(data) =>
        var first' := if n == 1 && data != [] then Some(data[0].conditionId) else first;
        assert PageData(entryPages, n) == data;
        if n == 1 {
          assert first' == FirstId(entryPages);
        }
        if !(n > 1 && data != [] && first'.Some? && first'.value != "" && data[0].conditionId == first'.value)
           && |data| >= FullPageEntries {
          assert ScrapeGoesOn(entryPages, n);
          ScrapeFromPages(entryPages, n + 1, first', AddNew(g, data));
        }
    }
  }

  /** The four ways the walk can end at page `n`, each as `ScrapeStoppedRightly` describes it. */
  lemma ScrapeStopsOnError(entryPages: seq<PageResult<Entry>>, n: nat, g: Gathered)
    requires 1 <= n <= MaxScrapePages && PageAt(entryPages, n - 1) == Fail && g == GatheredUpTo(entryPages, n - 1)
    ensures ScrapeStoppedRightly(entryPages, ScrapeRun(g, n, ScrapeError))
  {
  }

  lemma ScrapeStopsOnLoop(entryPages: seq<PageResult<Entry>>, n: nat, g: Gathered, data: seq<Entry>)
    requires 1 <= n <= MaxScrapePages && PageAt(entryPages, n - 1) == Ok(data) && g == GatheredUpTo(entryPages, n - 1)
    requires LoopsBack(entryPages, n)
    ensures ScrapeStoppedRightly(entryPages, ScrapeRun(g, n, LoopedBack))
  {
  }

  lemma ScrapeStopsOnLast(entryPages: seq<PageResult<Entry>>, n: nat, g: Gathered, data: seq<Entry>)
    requires 1 <= n <= MaxScrapePages && PageAt(entryPages, n - 1) == Ok(data) && g == GatheredUpTo(entryPages, n - 1)
    requires |data| < FullPageEntries && !LoopsBack(entryPages, n)
    ensures ScrapeStoppedRightly(entryPages, ScrapeRun(AddNew(g, data), n, LastPage))
  {
    assert PageData(entryPages, n) == data;
  }

  lemma ScrapeStopsOnLimit(entryPages: seq<PageResult<Entry>>, g: Gathered)
    requires g == GatheredUpTo(entryPages, MaxScrapePages)
    ensures ScrapeStoppedRightly(entryPages, ScrapeRun(g, MaxScrapePages + 1, PageLimitReached))
  {
  }

  /** From page `n` on, the final page and what was gathered are as `ScrapeStoppedRightly`
      says. */
  lemma {:induction false} ScrapeFromStop(entryPages: seq<PageResult<Entry>>, n: nat, first: Option<string>, g: Gathered)
    requires 1 <= n <= MaxScrapePages + 1 && ScrapeStateAt(entryPages, n, first, g)
    ensures ScrapeFrom(entryPages, n, first, g).finalPage >= 1
    ensures ScrapeStoppedRightly(entryPages, ScrapeFrom(entryPages, n, first, g))
    decreases MaxScrapePages + 1 - n
  {
    if n <= MaxScrapePages {
      match PageAt(entryPages, n - 1)
      case Fail =>
        ScrapeStopsOnError(entryPages, n, g);
      case Ok(data) =>
        ScrapeStep(entryPages, n, first, g, data);
        var first' := if n == 1 && data != [] then Some(data[0].conditionId) else first;
        assert PageData(entryPages, n) == data;
        if n == 1 {
          assert first' == FirstId(entryPages);
        }
        if n > 1 && data != [] && first'.Some? && first'.value != "" && data[0].conditionId == first'.value {
          assert LoopsBack(entryPages, n);
          ScrapeStopsOnLoop(entryPages, n, g, data);
        } else {
          assert !LoopsBack(entryPages, n);
          if |data| < FullPageEntries {
            ScrapeStopsOnLast(entryPages, n, g, data);
          } else {
            assert ScrapeGoesOn(entryPages, n);
            ScrapeFromStop(entryPages, n + 1, first', AddNew(g, data));
          }
        }
    } else {
      ScrapeStopsOnLimit(entryPages, g);
    }
  }

  /** Consistency of the gathered list holds throughout the walk. */
  lemma {:induction false} ScrapeFromConsistent(entryPages: seq<PageResult<Entry>>, n: nat, first: Option<string>, g: Gathered)
    requires n >= 1 && Consistent(g)
    ensures Consistent(ScrapeFrom(entryPages, n, first, g).gathered)
    decreases MaxScrapePages + 1 - n
  {
    if n <= MaxScrapePages {
      match PageAt(entryPages, n - 1)
      case Fail =>
      case Ok(data) =>
        AddNewConsistent(g, data);
        var first' := if n == 1 && data != [] then Some(data[0].conditionId) else first;
        if |data| >= FullPageEntries {
          ScrapeFromConsistent(entryPages, n + 1, first', AddNew(g, data));
        }
    }
  }

  /** A walk that stopped rightly has gathered what its added pages gather. */
  lemma StoppedGathered(entryPages: seq<PageResult<Entry>>, r: ScrapeRun)
    requires r.finalPage >= 1 && ScrapeStoppedRightly(entryPages, r)
    ensures r.gathered == GatheredUpTo(entryPages, PagesAdded(r))
  {
  }

  /** The whole walk: the final page is between 1 and 101 (101 exactly when the page limit
      ended it); every page before it answered with at least 90 entries and was not a repeat
      of page 1; the final page failed, repeated page 1 (nothing of it added), was partial
      (added) or the limit was reached; the entries are, in first-seen order, the first entry
      with each non-empty condition id over the added pages' entries one page after the
      other, with distinct non-empty condition ids. */
  lemma ScrapeWalkShape(pages: seq<PageResult<Link>>)
    ensures var r := ScrapeWalk(pages);
      && 1 <= r.finalPage <= MaxScrapePages + 1
      && (r.finalPage == MaxScrapePages + 1 <==> r.stop == PageLimitReached)
      && (forall m :: 1 <= m < r.finalPage ==> ScrapeGoesOn(ScriptedEntries(pages), m))
      && ScrapeStoppedRightly(ScriptedEntries(pages), r)
      && Consistent(r.gathered)
    ensures var r := ScrapeWalk(pages);
      && r.gathered.entries == FirstSeen(DataUpTo(ScriptedEntries(pages), PagesAdded(r)))
      && SeenOf(r.gathered.seen, DataUpTo(ScriptedEntries(pages), PagesAdded(r)))
  {
    var ep := ScriptedEntries(pages);
    ScrapeFromPages(ep, 1, None, Gathered([], {}));
    ScrapeFromStop(ep, 1, None, Gathered([], {}));
    ScrapeFromConsistent(ep, 1, None, Gathered([], {}));
    var r := ScrapeWalk(pages);
    StoppedGathered(ep, r);
    GatheredFirstSeen(ep, PagesAdded(r));
  }

  // ---------------------------------------------------------------------------------------
  // The monitor

  /** The `total` of the progress: `"?"` while scraping, the final page number after. */
  datatype Total = Unknown | Pages(n: nat)

  datatype ScrapeProgress = ScrapeProgress(current: nat, total: Total)

  /** The last page number the walk writes into the progress, for a walk that ended at
      `finalPage`: that page, or page 100 when the walk ran into the limit. */
  function LastPageShown(finalPage: nat): nat {
    if finalPage > MaxScrapePages then MaxScrapePages else finalPage
  }

  /** The `get_data()` dictionary, also the `/api/markets` reply. */
  datatype DataReply = DataReply(
    markets: seq<Entry>, totalCount: nat, lastUpdated: Option<string>, isScraping: bool, progress: ScrapeProgress)

  /** The `/api/status` reply. */
  datatype StatusReply = StatusReply(isScraping: bool, totalMarkets: nat, lastUpdated: Option<string>, progress: ScrapeProgress)

  /** The `/api/refresh` reply; `spawned` says whether a scraping thread was started. */
  datatype RefreshReply = RefreshReply(status: string, message: string, spawned: bool)

  class RewardsMonitor {
    var markets: seq<Entry>
    var lastUpdated: Option<string>
    var isScraping: bool
    var scrapeProgress: ScrapeProgress

    constructor ()
      ensures markets == [] && lastUpdated == None && !isScraping && scrapeProgress == ScrapeProgress(0, Unknown)
    {
      markets := [];
      lastUpdated := None;
      isScraping := false;
      scrapeProgress := ScrapeProgress(0, Unknown);
    }

    /** `scrape_all_pages`. `browserUp` says whether the browser started and opened its page,
        `browserClosed` whether closing the browser after the walk succeeded. When the session does
        not open, the exception leaves the method with `is_scraping` still set and nothing
        else changed. Otherwise the walk runs over the pages' links, writing the page number
        into the progress before each page. When closing then fails, the exception again
        leaves `is_scraping` set and the walk's entries are not stored; otherwise they become
        the monitor's markets, with progress `{final page, final page}`. */
    method ScrapeAllPages(browserUp: bool, browserClosed: bool, pages: seq<PageResult<Link>>, now: string)
      returns (result: Option<seq<Entry>>)
      modifies this`markets, this`lastUpdated, this`isScraping, this`scrapeProgress
      ensures !browserUp ==>
        && result == None && isScraping
        && markets == old(markets) && lastUpdated == old(lastUpdated) && scrapeProgress == old(scrapeProgress)
      ensures browserUp && !browserClosed ==>
        && result == None && isScraping
        && markets == old(markets) && lastUpdated == old(lastUpdated)
        && scrapeProgress == ScrapeProgress(LastPageShown(ScrapeWalk(pages).finalPage), Unknown)
      ensures browserUp && browserClosed ==>
        && markets == ScrapeWalk(pages).gathered.entries && result == Some(markets)
        && !isScraping && lastUpdated == Some(now)
        && scrapeProgress == ScrapeProgress(ScrapeWalk(pages).finalPage, Pages(ScrapeWalk(pages).finalPage))
    {
      isScraping := true;
      if !browserUp {
        return None;
      }
      var allMarkets: seq<Entry> := [];
      var seenIds: set<string> := {};
      var firstPageFirstMarket: Option<string> := None;
      ghost var walk := ScrapeWalk(pages);
      var pageNum: nat := 1;
      while pageNum <= MaxScrapePages
        invariant 1 <= pageNum <= MaxScrapePages + 1
        invariant ScrapeFrom(ScriptedEntries(pages), pageNum, firstPageFirstMarket, Gathered(allMarkets, seenIds)) == walk
        invariant pageNum > 1 ==> scrapeProgress == ScrapeProgress(pageNum - 1, Unknown)
        invariant markets == old(markets) && lastUpdated == old(lastUpdated) && isScraping
        decreases MaxScrapePages + 1 - pageNum
      {
        scrapeProgress := ScrapeProgress(pageNum, Unknown);
        var done;
        done, firstPageFirstMarket, allMarkets, seenIds :=
          VisitEntryPage(pages, pageNum, firstPageFirstMarket, allMarkets, seenIds, walk);
        if done {
          break;
        }
        pageNum := pageNum + 1;
      }
      if pageNum > MaxScrapePages {
        ScrapeFromLimit(ScriptedEntries(pages), firstPageFirstMarket, Gathered(allMarkets, seenIds));
      }
      if !browserClosed {
        return None;
      }
      markets := allMarkets;
      lastUpdated := Some(now);
      isScraping := false;
      scrapeProgress := ScrapeProgress(pageNum, Pages(pageNum));
      result := Some(allMarkets);
    }

    /** `scrape_all_pages` with the browser session wrapped so that `is_scraping` is cleared
        when the session fails: the flag is clear afterwards in every case, and the rest of
        the state is as `ScrapeAllPages` leaves it. */
    method ScrapeAllPagesReleasing(browserUp: bool, browserClosed: bool, pages: seq<PageResult<Link>>, now: string)
      returns (result: Option<seq<Entry>>)
      modifies this`markets, this`lastUpdated, this`isScraping, this`scrapeProgress
      ensures !isScraping
      ensures !browserUp ==>
        && result == None
        && markets == old(markets) && lastUpdated == old(lastUpdated) && scrapeProgress == old(scrapeProgress)
      ensures browserUp && !browserClosed ==>
        && result == None
        && markets == old(markets) && lastUpdated == old(lastUpdated)
        && scrapeProgress == ScrapeProgress(LastPageShown(ScrapeWalk(pages).finalPage), Unknown)
      ensures browserUp && browserClosed ==>
        && markets == ScrapeWalk(pages).gathered.entries && result == Some(markets)
        && lastUpdated == Some(now)
        && scrapeProgress == ScrapeProgress(ScrapeWalk(pages).finalPage, Pages(ScrapeWalk(pages).finalPage))
    {
      result := ScrapeAllPages(browserUp, browserClosed, pages, now);
      isScraping := false;
    }

    /** `get_data()`: the entries, their count, and the flags. */
    function GetData(): (r: DataReply)
      reads this
      ensures r.markets == markets && r.totalCount == |markets|
      ensures r.lastUpdated == lastUpdated && r.isScraping == isScraping && r.progress == scrapeProgress
    {
      DataReply(markets, |markets|, lastUpdated, isScraping, scrapeProgress)
    }

    /** The `/api/status` reply. */
    function StatusEndpoint(): (r: StatusReply)
      reads this
      ensures r.totalMarkets == |markets| && r.isScraping == isScraping
      ensures r.lastUpdated == lastUpdated && r.progress == scrapeProgress
    {
      StatusReply(isScraping, |markets|, lastUpdated, scrapeProgress)
    }

    /** `/api/refresh`: "busy" exactly while a scrape is under way; otherwise a scraping
        thread is started and the answer is "started". */
    function RefreshEndpoint(): (r: RefreshReply)
      reads this
      ensures r.status == "busy" <==> isScraping
      ensures r.status == "started" <==> !isScraping
      ensures r.spawned <==> !isScraping
    {
      if !isScraping then RefreshReply("started", "Scraping started", true)
      else RefreshReply("busy", "Already scraping", false)
    }

    /** A scrape whose browser does not start leaves the monitor answering "busy" to every
        later refresh request, and no request starts a scrape again. */
    method FailedLaunchBlocksRefresh(pages: seq<PageResult<Link>>, now: string) returns (reply: RefreshReply)
      modifies this
      ensures reply == RefreshEndpoint() && reply.status == "busy" && !reply.spawned
    {
      var result := ScrapeAllPages(false, true, pages, now);
      reply := RefreshEndpoint();
    }

    /** With the flag released, a refresh request after a failed launch starts a scrape. */
    method FailedLaunchReleasedRefresh(pages: seq<PageResult<Link>>, now: string) returns (reply: RefreshReply)
      modifies this
      ensures reply == RefreshEndpoint() && reply.status == "started" && reply.spawned
    {
      var result := ScrapeAllPagesReleasing(false, true, pages, now);
      reply := RefreshEndpoint();
    }
  }
}
