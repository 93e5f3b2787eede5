/**
 * The run-level bookkeeping of `main()`: gathering each competitor's crawl
 * into `today_results`, comparing every site of today with yesterday's
 * snapshot, totalling the changes, listing the sites that changed, and
 * choosing the notice and the snapshot to persist.
 */
module Report {
  import opened Wrappers
  import opened Seqs
  import opened Diff

  /**
   * `today_results`, a Python dict: its keys in insertion order and the
   * mapping itself.
   */
  datatype Results = Results(order: seq<string>, pages: map<string, Pages>) {
    /** Every dict satisfies this: each key once in the order, and the order holds exactly the keys. */
    predicate Valid() {
      && NoDups(order)
      && (forall n :: n in order ==> n in pages)
      && (forall n :: n in pages ==> n in order)
    }
  }

  /** A persisted snapshot (`latest_data.json`): site name to its pages. */
  type Snapshot = map<string, Pages>

  /**
   * `d[name] = pages`: an existing key keeps its place and takes the new
   * value; a new key goes at the end.
   */
  function Assign(d: Results, name: string, pages: Pages): (r: Results)
    requires d.Valid()
    ensures r.Valid()
    ensures r.pages == d.pages[name := pages]
    ensures |d.order| <= |r.order| && r.order[..|d.order|] == d.order
  {
    if name in d.pages then Results(d.order, d.pages[name := pages])
    else
      assert NoDups(d.order + [name]) by {
        NoDupsSnoc(d.order, name);
      }
      assert (d.order + [name])[..|d.order|] == d.order;
      Results(d.order + [name], d.pages[name := pages])
  }

  /** The competitors whose crawl succeeded. */
  function Crawled(names: seq<string>, outcomes: seq<Option<Pages>>): set<string>
    requires |names| == |outcomes|
  {
    set i | 0 <= i < |names| && outcomes[i].Some? :: names[i]
  }

  lemma CrawledStep(names: seq<string>, outcomes: seq<Option<Pages>>)
    requires |names| == |outcomes| && |names| > 0
    ensures Crawled(names, outcomes)
      == Crawled(names[..|names| - 1], outcomes[..|names| - 1])
         + (if outcomes[|names| - 1].Some? then {names[|names| - 1]} else {})
  {
    var n := |names| - 1;
    forall x | x in Crawled(names, outcomes)
      ensures x in Crawled(names[..n], outcomes[..n]) + (if outcomes[n].Some? then {names[n]} else {})
    {
      var i :| 0 <= i < |names| && outcomes[i].Some? && names[i] == x;
      if i < n {
        assert names[..n][i] == x && outcomes[..n][i].Some?;
      }
    }
    forall x | x in Crawled(names[..n], outcomes[..n])
      ensures x in Crawled(names, outcomes)
    {
      var i :| 0 <= i < n && outcomes[..n][i].Some? && names[..n][i] == x;
      assert names[i] == x && outcomes[i].Some?;
    }
  }

  /**
   * `today_results` after the crawl loop: competitor `names[i]` got
   * `outcomes[i]`, or None when its crawl raised. The keys are exactly the
   * competitors whose crawl succeeded, each once.
   */
  function CollectResults(names: seq<string>, outcomes: seq<Option<Pages>>): (today: Results)
    requires |names| == |outcomes|
    ensures today.Valid()
    ensures today.pages.Keys == Crawled(names, outcomes)
    decreases |names|
  {
    if |names| == 0 then Results([], map[])
    else
      var n := |names| - 1;
      var before := CollectResults(names[..n], outcomes[..n]);
      CrawledStep(names, outcomes);
      match outcomes[n]
      case None => before
      case Some(pages) => Assign(before, names[n], pages)
  }

  /** The competitor names whose crawl succeeded, in list order, repeats included. */
  function Succeeded(names: seq<string>, outcomes: seq<Option<Pages>>): seq<string>
    requires |names| == |outcomes|
    decreases |names|
  {
    if |names| == 0 then []
    else
      var n := |names| - 1;
      Succeeded(names[..n], outcomes[..n]) + (if outcomes[n].Some? then [names[n]] else [])
  }

  /**
   * The keys of `today_results` are ordered by each competitor's first
   * successful crawl, so the comparison loop and `company_summary` follow
   * that order.
   */
  lemma {:induction false} CollectResultsOrder(names: seq<string>, outcomes: seq<Option<Pages>>)
    requires |names| == |outcomes|
    ensures CollectResults(names, outcomes).order == Dedup(Succeeded(names, outcomes))
    decreases |names|
  {
    if |names| > 0 {
      var n := |names| - 1;
      var before := CollectResults(names[..n], outcomes[..n]);
      var prev := Succeeded(names[..n], outcomes[..n]);
      CollectResultsOrder(names[..n], outcomes[..n]);
      if outcomes[n].Some? {
        var b := prev + [names[n]];
        assert Succeeded(names, outcomes) == b;
        assert b[..|b| - 1] == prev && b[|b| - 1] == names[n];
        assert Dedup(b) == if names[n] in Dedup(prev) then Dedup(prev) else Dedup(prev) + [names[n]];
        assert CollectResults(names, outcomes) == Assign(before, names[n], outcomes[n].value);
        assert names[n] in before.pages <==> names[n] in before.order;
      } else {
        assert Succeeded(names, outcomes) == prev;
        assert CollectResults(names, outcomes) == before;
      }
    }
  }

  /** The outcome of the last successful crawl listed under `name`, if any. */
  function LastSuccess(names: seq<string>, outcomes: seq<Option<Pages>>, name: string): Option<Pages>
    requires |names| == |outcomes|
    decreases |names|
  {
    if |names| == 0 then None
    else if names[|names| - 1] == name && outcomes[|names| - 1].Some? then outcomes[|names| - 1]
    else LastSuccess(names[..|names| - 1], outcomes[..|names| - 1], name)
  }

  /**
   * A competitor is stored with the result of its last successful crawl,
   * and is absent exactly when every crawl under its name raised.
   */
  lemma {:induction false} CollectResultsLookup(names: seq<string>, outcomes: seq<Option<Pages>>, name: string)
    requires |names| == |outcomes|
    ensures (if name in CollectResults(names, outcomes).pages then Some(CollectResults(names, outcomes).pages[name]) else None)
            == LastSuccess(names, outcomes, name)
    decreases |names|
  {
    if |names| > 0 {
      var n := |names| - 1;
      CollectResultsLookup(names[..n], outcomes[..n], name);
    }
  }

  /** One site of today, as the comparison loop sees it. */
  datatype SiteResult = SiteResult(name: string, pages: Pages)

  /** `today_results.items()` in iteration order. */
  function Items(d: Results): (sites: seq<SiteResult>)
    requires d.Valid()
    ensures |sites| == |d.order|
    ensures forall i :: 0 <= i < |sites| ==> sites[i] == SiteResult(d.order[i], d.pages[d.order[i]])
  {
    seq(|d.order|, i requires 0 <= i < |d.order| && d.Valid() => SiteResult(d.order[i], d.pages[d.order[i]]))
  }

  /** `yesterday_results.get(name, {})`. */
  function PreviousPages(yesterday: Snapshot, name: string): Pages {
    if name in yesterday then yesterday[name] else map[]
  }

  /** `site_change_count` for one site of today. */
  function SiteCount(site: SiteResult, yesterday: Snapshot): nat {
    ChangeCount(site.pages, PreviousPages(yesterday, site.name))
  }

  /** `total_change_count`: the per-site counts summed over the sites. */
  function TotalChanges(sites: seq<SiteResult>, yesterday: Snapshot): nat
    decreases |sites|
  {
    if |sites| == 0 then 0
    else TotalChanges(sites[..|sites| - 1], yesterday) + SiteCount(sites[|sites| - 1], yesterday)
  }

  /** One entry of `company_summary`: a site and its change count. */
  datatype SiteSummary = SiteSummary(name: string, count: nat)

  /** `company_summary`: the sites with changes, in iteration order. */
  function Summary(sites: seq<SiteResult>, yesterday: Snapshot): seq<SiteSummary>
    decreases |sites|
  {
    if |sites| == 0 then []
    else
      var site := sites[|sites| - 1];
      var c := SiteCount(site, yesterday);
      Summary(sites[..|sites| - 1], yesterday) + (if c > 0 then [SiteSummary(site.name, c)] else [])
  }

  function SumCounts(s: seq<SiteSummary>): nat
    decreases |s|
  {
    if |s| == 0 then 0 else SumCounts(s[..|s| - 1]) + s[|s| - 1].count
  }

  lemma {:induction false} SumCountsAppend(s: seq<SiteSummary>, t: seq<SiteSummary>)
    ensures SumCounts(s + t) == SumCounts(s) + SumCounts(t)
    decreases |t|
  {
    if |t| == 0 {
      assert s + t == s;
    } else {
      assert (s + t)[..|s + t| - 1] == s + t[..|t| - 1];
      assert (s + t)[|s + t| - 1] == t[|t| - 1];
      SumCountsAppend(s, t[..|t| - 1]);
    }
  }

  /** Each summary entry is some site with that site's count, and the count is positive. */
  lemma {:induction false} SummaryEntries(sites: seq<SiteResult>, yesterday: Snapshot)
    ensures forall k :: 0 <= k < |Summary(sites, yesterday)| ==>
      Summary(sites, yesterday)[k].count > 0 &&
      exists i :: 0 <= i < |sites| && sites[i].name == Summary(sites, yesterday)[k].name
                && SiteCount(sites[i], yesterday) == Summary(sites, yesterday)[k].count
    decreases |sites|
  {
    if |sites| > 0 {
      var n := |sites| - 1;
      var pre := sites[..n];
      SummaryEntries(pre, yesterday);
      var s := Summary(sites, yesterday);
      forall k | 0 <= k < |s|
        ensures s[k].count > 0 &&
          exists i :: 0 <= i < |sites| && sites[i].name == s[k].name && SiteCount(sites[i], yesterday) == s[k].count
      {
        if k < |Summary(pre, yesterday)| {
          assert s[k] == Summary(pre, yesterday)[k];
          var i :| 0 <= i < |pre| && pre[i].name == s[k].name && SiteCount(pre[i], yesterday) == s[k].count;
          assert sites[i] == pre[i];
        } else {
          assert sites[n].name == s[k].name && SiteCount(sites[n], yesterday) == s[k].count;
        }
      }
    }
  }

  /** Every site with a positive count is listed, with its count. */
  lemma {:induction false} SummaryComplete(sites: seq<SiteResult>, yesterday: Snapshot)
    ensures forall i :: 0 <= i < |sites| && SiteCount(sites[i], yesterday) > 0 ==>
      SiteSummary(sites[i].name, SiteCount(sites[i], yesterday)) in Summary(sites, yesterday)
    decreases |sites|
  {
    if |sites| > 0 {
      var n := |sites| - 1;
      SummaryComplete(sites[..n], yesterday);
      forall i | 0 <= i < n
        ensures sites[i] == sites[..n][i]
      {
      }
    }
  }

  /** The total is the sum of the listed counts. */
  lemma {:induction false} SummaryTotal(sites: seq<SiteResult>, yesterday: Snapshot)
    ensures TotalChanges(sites, yesterday) == SumCounts(Summary(sites, yesterday))
    decreases |sites|
  {
    if |sites| > 0 {
      var n := |sites| - 1;
      SummaryTotal(sites[..n], yesterday);
      var c := SiteCount(sites[n], yesterday);
      var tail := if c > 0 then [SiteSummary(sites[n].name, c)] else [];
      SumCountsAppend(Summary(sites[..n], yesterday), tail);
      if c > 0 {
        assert tail[..0] == [];
      }
    }
  }

  /** Summed counts of positive entries vanish only for the empty list. */
  lemma SumCountsZero(s: seq<SiteSummary>)
    requires forall k :: 0 <= k < |s| ==> s[k].count > 0
    ensures SumCounts(s) == 0 <==> s == []
  {
  }

  /** The names of the sites, as a set. */
  function SiteNames(sites: seq<SiteResult>): set<string> {
    set i | 0 <= i < |sites| :: sites[i].name
  }

  /**
   * The summary lists exactly the sites with a positive count, with their
   * counts, and the total is the sum of the listed counts, zero exactly when
   * nothing is listed.
   */
  lemma {:induction false} SummaryFacts(sites: seq<SiteResult>, yesterday: Snapshot)
    ensures TotalChanges(sites, yesterday) == SumCounts(Summary(sites, yesterday))
    ensures forall k :: 0 <= k < |Summary(sites, yesterday)| ==>
      Summary(sites, yesterday)[k].count > 0 && Summary(sites, yesterday)[k].name in SiteNames(sites)
    ensures forall i :: 0 <= i < |sites| ==>
      (SiteCount(sites[i], yesterday) > 0 <==> SiteSummary(sites[i].name, SiteCount(sites[i], yesterday)) in Summary(sites, yesterday))
    ensures TotalChanges(sites, yesterday) == 0 <==> Summary(sites, yesterday) == []
  {
    var summary := Summary(sites, yesterday);
    SummaryEntries(sites, yesterday);
    SummaryComplete(sites, yesterday);
    SummaryTotal(sites, yesterday);
    SumCountsZero(summary);
    forall k | 0 <= k < |summary|
      ensures summary[k].name in SiteNames(sites)
    {
      var i :| 0 <= i < |sites| && sites[i].name == summary[k].name && SiteCount(sites[i], yesterday) == summary[k].count;
    }
  }

  /** One site's pass: its pages against `yesterday_results.get(name, {})`. */
  method CompareSite(site: SiteResult, yesterday: Snapshot) returns (count: nat)
    ensures count == SiteCount(site, yesterday)
    ensures site.name !in yesterday ==> count == |site.pages|
  {
    count := CountSiteChanges(site.pages, PreviousPages(yesterday, site.name));
    ChangeCountSplit(site.pages, PreviousPages(yesterday, site.name));
    if site.name !in yesterday {
      MissingSiteAllNew(site.pages);
      assert |site.pages| == |site.pages.Keys|;
    }
  }

  /**
   * The comparison loop over `today_results`: the grand total and the list
   * of sites that changed, with their counts. A site is listed exactly when
   * its count is positive, and the total is zero exactly when none is.
   */
  method CompareSnapshots(today: Results, yesterday: Snapshot)
    returns (total: nat, summary: seq<SiteSummary>)
    requires today.Valid()
    ensures total == TotalChanges(Items(today), yesterday) && summary == Summary(Items(today), yesterday)
    ensures total == SumCounts(summary)
    ensures forall e :: e in summary ==>
      e.name in today.pages && e.count == SiteCount(SiteResult(e.name, today.pages[e.name]), yesterday) && e.count > 0
    ensures forall name :: name in today.pages && SiteCount(SiteResult(name, today.pages[name]), yesterday) > 0 ==>
      SiteSummary(name, SiteCount(SiteResult(name, today.pages[name]), yesterday)) in summary
    ensures total == 0 <==> summary == []
  {
    total, summary := CompareSites(Items(today), yesterday);
    SummaryFacts(Items(today), yesterday);
    SummaryEntriesByName(today, yesterday);
    SummaryListsChanged(today, yesterday);
  }

  /** Each summary entry is a site crawled today, with that site's count. */
  lemma {:induction false} SummaryEntriesByName(today: Results, yesterday: Snapshot)
    requires today.Valid()
    ensures forall e :: e in Summary(Items(today), yesterday) ==>
      e.name in today.pages && e.count == SiteCount(SiteResult(e.name, today.pages[e.name]), yesterday)
  {
    var sites := Items(today);
    var summary := Summary(sites, yesterday);
    SummaryEntries(sites, yesterday);
    forall e | e in summary
      ensures e.name in today.pages && e.count == SiteCount(SiteResult(e.name, today.pages[e.name]), yesterday)
    {
      var k :| 0 <= k < |summary| && summary[k] == e;
      var i :| 0 <= i < |sites| && sites[i].name == e.name && SiteCount(sites[i], yesterday) == e.count;
      assert sites[i] == SiteResult(e.name, today.pages[e.name]);
    }
  }

  /** Every site crawled today with a positive count is listed, with its count. */
  lemma {:induction false} SummaryListsChanged(today: Results, yesterday: Snapshot)
    requires today.Valid()
    ensures forall name :: name in today.pages && SiteCount(SiteResult(name, today.pages[name]), yesterday) > 0 ==>
      SiteSummary(name, SiteCount(SiteResult(name, today.pages[name]), yesterday)) in Summary(Items(today), yesterday)
  {
    var sites := Items(today);
    SummaryComplete(sites, yesterday);
    forall name | name in today.pages && SiteCount(SiteResult(name, today.pages[name]), yesterday) > 0
      ensures SiteSummary(name, SiteCount(SiteResult(name, today.pages[name]), yesterday)) in Summary(sites, yesterday)
    {
      var i :| 0 <= i < |today.order| && today.order[i] == name;
      assert sites[i] == SiteResult(name, today.pages[name]);
    }
  }

  /** The loop itself, over the sites in iteration order. */
  method CompareSites(sites: seq<SiteResult>, yesterday: Snapshot) returns (total: nat, summary: seq<SiteSummary>)
    ensures total == TotalChanges(sites, yesterday)
    ensures summary == Summary(sites, yesterday)
  {
    total := 0;
    summary := [];
    for i := 0 to |sites|
      invariant total == TotalChanges(sites[..i], yesterday)
      invariant summary == Summary(sites[..i], yesterday)
    {
      CompareStep(sites, i, yesterday);
      var count := CompareSite(sites[i], yesterday);
      if count > 0 {
        total := total + count;
        summary := summary + [SiteSummary(sites[i].name, count)];
      }
    }
    assert sites[..|sites|] == sites;
  }

  /** Extending the compared prefix by one site adds its count, and lists it when the count is positive. */
  lemma CompareStep(sites: seq<SiteResult>, i: nat, yesterday: Snapshot)
    requires i < |sites|
    ensures TotalChanges(sites[..i + 1], yesterday) == TotalChanges(sites[..i], yesterday) + SiteCount(sites[i], yesterday)
    ensures Summary(sites[..i + 1], yesterday)
      == Summary(sites[..i], yesterday)
         + (if SiteCount(sites[i], yesterday) > 0 then [SiteSummary(sites[i].name, SiteCount(sites[i], yesterday))] else [])
  {
    assert sites[..i + 1][..i] == sites[..i] && sites[..i + 1][i] == sites[i];
  }

  /** A site in yesterday's snapshot that was not crawled today is never compared. */
  lemma {:induction false} VanishedSiteIgnored(sites: seq<SiteResult>, yesterday: Snapshot, name: string)
    requires forall i :: 0 <= i < |sites| ==> sites[i].name != name
    ensures TotalChanges(sites, yesterday - {name}) == TotalChanges(sites, yesterday)
    ensures Summary(sites, yesterday - {name}) == Summary(sites, yesterday)
    decreases |sites|
  {
    if |sites| > 0 {
      var n := |sites| - 1;
      var pre := sites[..n];
      assert forall i :: 0 <= i < n ==> pre[i] == sites[i];
      VanishedSiteIgnored(pre, yesterday, name);
      SiteCountIgnores(sites[n], yesterday, name);
    }
  }

  lemma SiteCountIgnores(site: SiteResult, yesterday: Snapshot, name: string)
    requires site.name != name
    ensures SiteCount(site, yesterday - {name}) == SiteCount(site, yesterday)
  {
    assert PreviousPages(yesterday - {name}, site.name) == PreviousPages(yesterday, site.name);
  }

  /** What gets sent: a change report with its summary, or the "no changes today" notice. */
  datatype Notice = ChangeReport(total: nat, summary: seq<SiteSummary>) | NoChangeNotice

  /** The end of a run: the snapshot written to `latest_data.json` and the notice sent. */
  datatype RunOutcome = RunOutcome(saved: Snapshot, notice: Notice)

  /**
   * The end of `main()`. Both branches persist today's results, changed or
   * not; sites whose crawl raised are therefore dropped from the snapshot.
   * A change report goes out exactly when some site of today changed.
   */
  function Finish(today: Results, yesterday: Snapshot): (r: RunOutcome)
    requires today.Valid()
    ensures r.saved.Keys == today.pages.Keys
    ensures forall n :: n in r.saved ==> r.saved[n] == today.pages[n]
    ensures r.notice.ChangeReport? <==>
      exists name :: name in today.pages && SiteCount(SiteResult(name, today.pages[name]), yesterday) > 0
    ensures r.notice.ChangeReport? ==>
      r.notice.total == TotalChanges(Items(today), yesterday) && r.notice.summary == Summary(Items(today), yesterday)
    ensures r.notice.ChangeReport? ==> r.notice.summary != [] && r.notice.total == SumCounts(r.notice.summary)
    ensures r.notice.ChangeReport? ==> forall e :: e in r.notice.summary ==>
      e.name in today.pages && e.count == SiteCount(SiteResult(e.name, today.pages[e.name]), yesterday) && e.count > 0
    ensures r.notice.ChangeReport? ==> forall name :: name in today.pages && SiteCount(SiteResult(name, today.pages[name]), yesterday) > 0 ==>
      SiteSummary(name, SiteCount(SiteResult(name, today.pages[name]), yesterday)) in r.notice.summary
  {
    var sites := Items(today);
    var total := TotalChanges(sites, yesterday);
    SummaryFacts(sites, yesterday);
    SummaryEntriesByName(today, yesterday);
    SummaryListsChanged(today, yesterday);
    if total > 0 then
      var s := Summary(sites, yesterday);
      assert s[0] in s;
      RunOutcome(today.pages, ChangeReport(total, s))
    else
      RunOutcome(today.pages, NoChangeNotice)
  }

  /**
   * Running again on the same crawl, against the snapshot the first run
   * saved, sends the "no changes" notice.
   */
  lemma RepeatRunIsQuiet(today: Results, yesterday: Snapshot)
    requires today.Valid()
    ensures Finish(today, Finish(today, yesterday).saved).notice == NoChangeNotice
  {
    var saved := Finish(today, yesterday).saved;
    forall i | 0 <= i < |today.order|
      ensures SiteCount(Items(today)[i], saved) == 0
    {
      SelfCompareQuiet(today.pages[today.order[i]]);
    }
  }

  /**
   * A site whose crawl raised today is missing from the saved snapshot, so
   * the next run that crawls it reports every one of its URLs as new.
   */
  lemma FailedCrawlForgetsSite(today: Results, yesterday: Snapshot, next: Results, name: string)
    requires today.Valid() && next.Valid()
    requires name !in today.pages && name in next.pages
    ensures name !in Finish(today, yesterday).saved
    ensures ChangedUrls(next.pages[name], PreviousPages(Finish(today, yesterday).saved, name)) == next.pages[name].Keys
  {
    MissingSiteAllNew(next.pages[name]);
  }
}
