/**
 * The per-site change classifier of `main()`: today's map from URL to
 * cleaned HTML against yesterday's. Every URL of either map gets one label;
 * bodies are compared after deleting every ASCII space.
 */
module Diff {
  import opened Text

  /** One site's crawl: detail-page URL to its cleaned HTML. */
  type Pages = map<string, string>

  datatype Label = New | Deleted | Updated | Unchanged

  /**
   * The label of one URL of `today` or `yesterday`, decided in the order `main()` tests it:
   * present today only, present yesterday only, else bodies differing once
   * spaces are removed. The body comparison indexes both maps, which the
   * first two tests make safe.
   */
  function Classify(today: Pages, yesterday: Pages, url: string): Label
    requires url in today.Keys + yesterday.Keys
  {
    if url in today && url !in yesterday then New
    else if url !in today && url in yesterday then Deleted
    else if StripSpaces(today[url]) != StripSpaces(yesterday[url]) then Updated
    else Unchanged
  }

  /** The label of a URL is the class it belongs to, whatever order the tests are made in. */
  lemma ClassifyMatchesClasses(today: Pages, yesterday: Pages, url: string)
    requires url in today.Keys + yesterday.Keys
    ensures Classify(today, yesterday, url) == New <==> url in NewUrls(today, yesterday)
    ensures Classify(today, yesterday, url) == Deleted <==> url in DeletedUrls(today, yesterday)
    ensures Classify(today, yesterday, url) == Updated <==> url in UpdatedUrls(today, yesterday)
    ensures Classify(today, yesterday, url) == Unchanged <==> url in UnchangedUrls(today, yesterday)
  {
  }

  // The four classes, each defined on its own from the two maps.

  function NewUrls(today: Pages, yesterday: Pages): set<string> {
    today.Keys - yesterday.Keys
  }

  function DeletedUrls(today: Pages, yesterday: Pages): set<string> {
    yesterday.Keys - today.Keys
  }

  function UpdatedUrls(today: Pages, yesterday: Pages): set<string> {
    set u | u in today && u in yesterday && !SameIgnoringSpaces(today[u], yesterday[u])
  }

  function UnchangedUrls(today: Pages, yesterday: Pages): set<string> {
    set u | u in today && u in yesterday && SameIgnoringSpaces(today[u], yesterday[u])
  }

  /** The URLs that produce a report entry. */
  function ChangedUrls(today: Pages, yesterday: Pages): set<string> {
    set u | u in today.Keys + yesterday.Keys && Classify(today, yesterday, u) != Unchanged
  }

  /** `site_change_count` as a value: one per reported URL. */
  function ChangeCount(today: Pages, yesterday: Pages): nat {
    |ChangedUrls(today, yesterday)|
  }

  /** Every URL of either map falls in exactly one of the four classes. */
  lemma Partition(today: Pages, yesterday: Pages)
    ensures NewUrls(today, yesterday) + DeletedUrls(today, yesterday) + UpdatedUrls(today, yesterday)
      + UnchangedUrls(today, yesterday) == today.Keys + yesterday.Keys
    ensures NewUrls(today, yesterday) !! DeletedUrls(today, yesterday)
    ensures NewUrls(today, yesterday) !! UpdatedUrls(today, yesterday)
    ensures NewUrls(today, yesterday) !! UnchangedUrls(today, yesterday)
    ensures DeletedUrls(today, yesterday) !! UpdatedUrls(today, yesterday)
    ensures DeletedUrls(today, yesterday) !! UnchangedUrls(today, yesterday)
    ensures UpdatedUrls(today, yesterday) !! UnchangedUrls(today, yesterday)
  {
    forall u | u in today.Keys + yesterday.Keys
      ensures u in NewUrls(today, yesterday) || u in DeletedUrls(today, yesterday)
           || u in UpdatedUrls(today, yesterday) || u in UnchangedUrls(today, yesterday)
    {
      ClassifyMatchesClasses(today, yesterday, u);
    }
  }

  /** The reported URLs are exactly the new, deleted and updated ones. */
  lemma ChangedUrlsSplit(today: Pages, yesterday: Pages)
    ensures ChangedUrls(today, yesterday) == NewUrls(today, yesterday) + DeletedUrls(today, yesterday) + UpdatedUrls(today, yesterday)
  {
    forall x | x in ChangedUrls(today, yesterday)
      ensures x in NewUrls(today, yesterday) + DeletedUrls(today, yesterday) + UpdatedUrls(today, yesterday)
    {
      ClassifyMatchesClasses(today, yesterday, x);
    }
    forall x | x in NewUrls(today, yesterday) + DeletedUrls(today, yesterday) + UpdatedUrls(today, yesterday)
      ensures x in ChangedUrls(today, yesterday)
    {
      ClassifyMatchesClasses(today, yesterday, x);
    }
  }

  /** So the count is the sum of the three class sizes. */
  lemma ChangeCountSplit(today: Pages, yesterday: Pages)
    ensures ChangeCount(today, yesterday) == |NewUrls(today, yesterday)| + |DeletedUrls(today, yesterday)| + |UpdatedUrls(today, yesterday)|
  {
    ChangedUrlsSplit(today, yesterday);
    DisjointUnionSize(NewUrls(today, yesterday), DeletedUrls(today, yesterday), UpdatedUrls(today, yesterday));
  }

  lemma DisjointUnionSize(a: set<string>, b: set<string>, c: set<string>)
    requires a !! b && a !! c && b !! c
    ensures |a + b + c| == |a| + |b| + |c|
  {
    assert |a + b| == |a| + |b|;
    assert (a + b) !! c;
  }

  /** No changes at all exactly when both maps hold the same URLs with bodies equal up to spaces. */
  lemma NoChangeIff(today: Pages, yesterday: Pages)
    ensures ChangeCount(today, yesterday) == 0 <==>
      today.Keys == yesterday.Keys && forall u :: u in today ==> SameIgnoringSpaces(today[u], yesterday[u])
  {
    ChangeCountSplit(today, yesterday);
    if ChangeCount(today, yesterday) == 0 {
      assert NewUrls(today, yesterday) == {} && DeletedUrls(today, yesterday) == {};
      forall u | u in today
        ensures SameIgnoringSpaces(today[u], yesterday[u])
      {
        assert u !in UpdatedUrls(today, yesterday);
      }
    }
  }

  /**
   * The counting loop over `set(pages) | set(old_pages)`, visiting the URLs
   * in an unspecified order: the number of URLs labelled other than unchanged.
   */
  method CountSiteChanges(today: Pages, yesterday: Pages) returns (count: nat)
    ensures count == |NewUrls(today, yesterday)| + |DeletedUrls(today, yesterday)| + |UpdatedUrls(today, yesterday)|
    ensures count == 0 <==> today.Keys == yesterday.Keys && forall u :: u in today ==> SameIgnoringSpaces(today[u], yesterday[u])
  {
    var allUrls := today.Keys + yesterday.Keys;
    var remaining := allUrls;
    ghost var changed: set<string> := {};
    count := 0;
    while remaining != {}
      invariant remaining <= allUrls
      invariant changed <= allUrls - remaining
      invariant forall u :: u in allUrls - remaining ==> (u in changed <==> Classify(today, yesterday, u) != Unchanged)
      invariant count == |changed|
      decreases remaining
    {
      var url :| url in remaining;
      if Classify(today, yesterday, url) != Unchanged {
        changed := changed + {url};
        count := count + 1;
      }
      remaining := remaining - {url};
    }
    CountedAll(today, yesterday, changed);
  }

  lemma CountedAll(today: Pages, yesterday: Pages, changed: set<string>)
    requires changed <= today.Keys + yesterday.Keys
    requires forall u :: u in today.Keys + yesterday.Keys ==> (u in changed <==> Classify(today, yesterday, u) != Unchanged)
    ensures |changed| == |NewUrls(today, yesterday)| + |DeletedUrls(today, yesterday)| + |UpdatedUrls(today, yesterday)|
    ensures |changed| == 0 <==> today.Keys == yesterday.Keys && forall u :: u in today ==> SameIgnoringSpaces(today[u], yesterday[u])
  {
    assert changed == ChangedUrls(today, yesterday);
    ChangeCountSplit(today, yesterday);
    NoChangeIff(today, yesterday);
  }

  /** A map compared with itself reports nothing. */
  lemma SelfCompareQuiet(pages: Pages)
    ensures ChangedUrls(pages, pages) == {}
  {
    NoChangeIff(pages, pages);
  }

  /** Inserting one space into one body is not a change. */
  lemma SpaceEditQuiet(pages: Pages, url: string, i: nat)
    requires url in pages && i <= |pages[url]|
    ensures ChangedUrls(pages[url := pages[url][..i] + " " + pages[url][i..]], pages) == {}
  {
    var s := pages[url];
    var today := pages[url := s[..i] + " " + s[i..]];
    InsertSpaceInvisible(s, i);
    NoChangeIff(today, pages);
  }

  /** Inserting any other character (a newline, a tab) into one body reports exactly that URL, as updated. */
  lemma OtherWhitespaceEditReported(pages: Pages, url: string, i: nat, c: char)
    requires url in pages && i <= |pages[url]| && c != ' '
    ensures ChangedUrls(pages[url := pages[url][..i] + [c] + pages[url][i..]], pages) == {url}
    ensures Classify(pages[url := pages[url][..i] + [c] + pages[url][i..]], pages, url) == Updated
  {
    var s := pages[url];
    var today := pages[url := s[..i] + [c] + s[i..]];
    InsertNonSpaceVisible(s, i, c);
    forall u | u in today.Keys + pages.Keys && u != url
      ensures Classify(today, pages, u) == Unchanged
    {
      assert today[u] == pages[u];
    }
  }

  /** A site absent from yesterday's snapshot reports every URL of today as new. */
  lemma MissingSiteAllNew(today: Pages)
    ensures ChangedUrls(today, map[]) == today.Keys
    ensures forall u :: u in today ==> Classify(today, map[], u) == New
  {
  }

  /** Swapping the two days swaps new and deleted, keeps updated, and keeps the count. */
  lemma SwapDays(today: Pages, yesterday: Pages)
    ensures NewUrls(today, yesterday) == DeletedUrls(yesterday, today)
    ensures UpdatedUrls(today, yesterday) == UpdatedUrls(yesterday, today)
    ensures ChangeCount(today, yesterday) == ChangeCount(yesterday, today)
  {
    ChangeCountSplit(today, yesterday);
    ChangeCountSplit(yesterday, today);
  }
}
