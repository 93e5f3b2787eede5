/**
 * The listing-page crawl of `crawl_site_logic`: build each page's URL, keep
 * the hrefs that look like event posts, de-duplicate them in first-seen order
 * and decide when to stop paging. The browser is an oracle from a target URL
 * to the `href` attributes of the page's anchors (or `None` when loading the
 * page raised), `urljoin` is an opaque `join`, and loading plus cleaning a
 * detail page is an opaque `detail` oracle.
 */
module Listing {
  import opened Wrappers
  import opened Text
  import opened Seqs

  /** The hard cap on listing pages requested for one site. */
  const MaxPages: nat := 10

  /** What the browser returns for one listing URL: each anchor's `href` (None when absent or unreadable). */
  type Fetcher = string -> Option<seq<Option<string>>>

  /** Python truthiness of `pagination_param`: neither `None` nor the empty string. */
  predicate Paginated(param: Option<string>) {
    param.Some? && param.value != ""
  }

  /** The query-string separator: `&` when the base URL already has a query, `?` otherwise. */
  function Connector(base: string): char {
    if '?' in base then '&' else '?'
  }

  /** The URL requested for listing page `page`. */
  function PageUrl(base: string, param: Option<string>, page: nat): (url: string)
    ensures !Paginated(param) ==> url == base
    ensures Paginated(param) ==> |url| == |base| + 1 + |param.value| + 1 + |NatToDecimal(page)|
    ensures Paginated(param) ==> url[..|base|] == base
    ensures Paginated(param) ==> url[|base|] == (if '?' in base then '&' else '?')
    ensures Paginated(param) ==> '?' in url
    ensures Paginated(param) ==> EndsWith(url, param.value + "=" + NatToDecimal(page))
  {
    if Paginated(param) then
      var url := base + [Connector(base)] + param.value + "=" + NatToDecimal(page);
      assert url[|base|] == Connector(base);
      assert url == (base + [Connector(base)]) + (param.value + "=" + NatToDecimal(page));
      url
    else base
  }

  /** With a pagination parameter, every page number gets its own URL. */
  lemma PageUrlInjective(base: string, param: Option<string>, p: nat, q: nat)
    requires Paginated(param) && PageUrl(base, param, p) == PageUrl(base, param, q)
    ensures p == q
  {
    var prefix := base + [Connector(base)] + param.value + "=";
    assert PageUrl(base, param, p) == prefix + NatToDecimal(p);
    assert PageUrl(base, param, q) == prefix + NatToDecimal(q);
    assert NatToDecimal(p) == PageUrl(base, param, p)[|prefix|..];
    assert NatToDecimal(q) == PageUrl(base, param, q)[|prefix|..];
    DecimalInjective(p, q);
  }

  /** The URLs of listing pages 1..n, in request order. */
  function PageUrls(base: string, param: Option<string>, n: nat): (urls: seq<string>)
    ensures |urls| == n
  {
    if n == 0 then [] else PageUrls(base, param, n - 1) + [PageUrl(base, param, n)]
  }

  /** The i-th request (from 0) is for page i + 1. */
  lemma {:induction false} PageUrlsAt(base: string, param: Option<string>, n: nat, i: nat)
    requires i < n
    ensures PageUrls(base, param, n)[i] == PageUrl(base, param, i + 1)
    decreases n
  {
    if i < n - 1 {
      PageUrlsAt(base, param, n - 1, i);
    }
  }

  /** The href mentions one of the post keywords. */
  predicate HasPostKeyword(href: string) {
    Contains(href, "event") || Contains(href, "view") || Contains(href, "detail") || Contains(href, "notice")
  }

  /** The link filter: a non-empty href naming a post, not an in-page anchor, not a script call. */
  predicate Accepted(href: Option<string>) {
    && href.Some?
    && href.value != ""
    && HasPostKeyword(href.value)
    && !StartsWith(href.value, "#")
    && !Contains(href.value, "javascript")
  }

  /** Root-relative hrefs are resolved against the site's base URL; others are kept as written. */
  function Resolve(base: string, href: string, join: (string, string) -> string): string {
    if StartsWith(href, "/") then join(base, href) else href
  }

  /** The accepted hrefs of a page, resolved, in page order (duplicates kept). */
  function Kept(hrefs: seq<Option<string>>, base: string, join: (string, string) -> string): seq<string>
    decreases |hrefs|
  {
    if |hrefs| == 0 then []
    else
      var h := hrefs[|hrefs| - 1];
      Kept(hrefs[..|hrefs| - 1], base, join) + (if Accepted(h) then [Resolve(base, h.value, join)] else [])
  }

  /** Every kept link is the resolution of some accepted href of the page. */
  lemma {:induction false} KeptSound(hrefs: seq<Option<string>>, base: string, join: (string, string) -> string, x: string)
    requires x in Kept(hrefs, base, join)
    ensures exists i :: 0 <= i < |hrefs| && Accepted(hrefs[i]) && Resolve(base, hrefs[i].value, join) == x
    decreases |hrefs|
  {
    var n := |hrefs| - 1;
    if x in Kept(hrefs[..n], base, join) {
      KeptSound(hrefs[..n], base, join, x);
      var i :| 0 <= i < n && Accepted(hrefs[..n][i]) && Resolve(base, hrefs[..n][i].value, join) == x;
      assert hrefs[i] == hrefs[..n][i];
    } else {
      assert Accepted(hrefs[n]) && Resolve(base, hrefs[n].value, join) == x;
    }
  }

  /** Every accepted href of the page is kept, resolved. */
  lemma {:induction false} KeptComplete(hrefs: seq<Option<string>>, base: string, join: (string, string) -> string, i: nat)
    requires i < |hrefs| && Accepted(hrefs[i])
    ensures Resolve(base, hrefs[i].value, join) in Kept(hrefs, base, join)
    decreases |hrefs|
  {
    var n := |hrefs| - 1;
    if i < n {
      assert hrefs[..n][i] == hrefs[i];
      KeptComplete(hrefs[..n], base, join, i);
    }
  }

  /**
   * `current_page_links`: the accepted, resolved hrefs of one page, each once,
   * in the order they first appear on the page.
   */
  method PageLinks(hrefs: seq<Option<string>>, base: string, join: (string, string) -> string)
    returns (current: seq<string>)
    ensures current == Dedup(Kept(hrefs, base, join))
    ensures NoDups(current)
    ensures forall x :: x in current <==> x in Kept(hrefs, base, join)
    ensures FirstSeenOrder(current, Kept(hrefs, base, join))
  {
    current := [];
    for i := 0 to |hrefs|
      invariant current == AppendNew([], Kept(hrefs[..i], base, join))
    {
      assert hrefs[..i + 1][..i] == hrefs[..i];
      var h := hrefs[i];
      assert hrefs[..i + 1][i] == h;
      var before := Kept(hrefs[..i], base, join);
      if Accepted(h) {
        var link := Resolve(base, h.value, join);
        assert Kept(hrefs[..i + 1], base, join) == before + [link];
        assert (before + [link])[..|before|] == before;
        assert AppendNew([], before + [link]) == if link in current then current else current + [link];
      } else {
        assert Kept(hrefs[..i + 1], base, join) == before;
      }
      if Accepted(h) {
        var link := Resolve(base, h.value, join);
        if link !in current {
          current := current + [link];
        }
      }
    }
    assert hrefs[..|hrefs|] == hrefs;
    DedupFirstSeen(Kept(hrefs, base, join));
  }

  /**
   * Appends to `collected` each link of `current` it does not hold yet.
   * What was collected before stays in place, in its order.
   */
  method MergeLinks(collected: seq<string>, current: seq<string>) returns (r: seq<string>)
    ensures r == AppendNew(collected, current)
    ensures r[..|collected|] == collected
    ensures forall x :: x in r <==> x in collected || x in current
    ensures NoDups(collected) ==> NoDups(r)
  {
    r := collected;
    for j := 0 to |current|
      invariant r == AppendNew(collected, current[..j])
    {
      assert current[..j + 1][..j] == current[..j];
      if current[j] !in r {
        r := r + [current[j]];
      }
    }
    assert current[..|current|] == current;
  }

  // The reference account of paging: what each page yields and whether the crawl stops there.

  /** The de-duplicated links of listing page `p`, or None when loading it raised. */
  function LinksOf(base: string, param: Option<string>, fetch: Fetcher, join: (string, string) -> string, p: nat): Option<seq<string>> {
    match fetch(PageUrl(base, param, p))
    case None => None
    case Some(hrefs) => Some(Dedup(Kept(hrefs, base, join)))
  }

  /** The links of the page before `p` (nothing before the first page). */
  function PreviousLinks(base: string, param: Option<string>, fetch: Fetcher, join: (string, string) -> string, p: nat): seq<string> {
    if p <= 1 then [] else LinksOf(base, param, fetch, join, p - 1).GetOr([])
  }

  /** `sorted(a) == sorted(b)`: equal as sorted lists exactly when equal as multisets. */
  predicate SameSorted(a: seq<string>, b: seq<string>) {
    multiset(a) == multiset(b)
  }

  datatype StopReason = FetchFailed | EmptyPage | RepeatedPage | SinglePage | PageLimit {
    /** Whether the last requested page's links were merged before stopping. */
    predicate Merged() {
      this == SinglePage || this == PageLimit
    }
  }

  /** Why the crawl stops after requesting page `p`, or None when it moves on to page `p + 1`. */
  function StopAt(base: string, param: Option<string>, fetch: Fetcher, join: (string, string) -> string, p: nat): Option<StopReason> {
    match LinksOf(base, param, fetch, join, p)
    case None => Some(FetchFailed)
    case Some(links) =>
      if links == [] then Some(EmptyPage)
      else if SameSorted(links, PreviousLinks(base, param, fetch, join, p)) then Some(RepeatedPage)
      else if !Paginated(param) then Some(SinglePage)
      else if p + 1 > MaxPages then Some(PageLimit)
      else None
  }

  /** The crawl moved on from every page before `n`. */
  predicate MovesOnBefore(base: string, param: Option<string>, fetch: Fetcher, join: (string, string) -> string, n: nat) {
    forall p :: 1 <= p < n ==> StopAt(base, param, fetch, join, p) == None
  }

  lemma MovesOnExtend(base: string, param: Option<string>, fetch: Fetcher, join: (string, string) -> string, n: nat)
    requires MovesOnBefore(base, param, fetch, join, n)
    requires StopAt(base, param, fetch, join, n) == None
    ensures MovesOnBefore(base, param, fetch, join, n + 1)
  {
  }

  /** Without a pagination parameter the first page always ends the crawl. */
  lemma UnpaginatedStopsAtFirstPage(base: string, param: Option<string>, fetch: Fetcher, join: (string, string) -> string)
    requires !Paginated(param)
    ensures StopAt(base, param, fetch, join, 1).Some?
  {
  }

  /**
   * A crawl of an unpaginated site that moved on from every page before
   * request `n` made exactly one request.
   */
  lemma UnpaginatedSingleRequest(base: string, param: Option<string>, fetch: Fetcher, join: (string, string) -> string, n: nat)
    requires !Paginated(param) && 1 <= n
    requires MovesOnBefore(base, param, fetch, join, n)
    ensures n == 1
  {
    UnpaginatedStopsAtFirstPage(base, param, fetch, join);
  }

  /** No crawl moves past the last allowed page. */
  lemma CapStops(base: string, param: Option<string>, fetch: Fetcher, join: (string, string) -> string, p: nat)
    requires p >= MaxPages
    ensures StopAt(base, param, fetch, join, p).Some?
  {
  }

  /** The links of pages 1..n, concatenated in page order. */
  function Harvest(base: string, param: Option<string>, fetch: Fetcher, join: (string, string) -> string, n: nat): seq<string> {
    if n == 0 then [] else Harvest(base, param, fetch, join, n - 1) + LinksOf(base, param, fetch, join, n).GetOr([])
  }

  /**
   * One pass of the listing loop for page `page`: load it, filter its links,
   * stop on a failed load, an empty page or a repeat of the previous page,
   * otherwise merge its links; then stop for a single-page site or at the
   * page cap. `last` and `collected` are the loop's state on entry.
   */
  method VisitPage(base: string, param: Option<string>, fetch: Fetcher, join: (string, string) -> string,
                   page: nat, last: seq<string>, collected: seq<string>)
    returns (stop: Option<StopReason>, current: seq<string>, merged: seq<string>)
    requires 1 <= page
    requires last == PreviousLinks(base, param, fetch, join, page)
    requires collected == Dedup(Harvest(base, param, fetch, join, page - 1))
    ensures stop == StopAt(base, param, fetch, join, page)
    ensures stop.None? ==> Paginated(param) && page < MaxPages
    ensures stop.None? ==> current == PreviousLinks(base, param, fetch, join, page + 1)
    ensures stop.None? ==> merged == Dedup(Harvest(base, param, fetch, join, page))
    ensures stop.Some? ==> merged == Dedup(Harvest(base, param, fetch, join, MergedPages(stop.value, page)))
  {
    merged := collected;
    current := [];
    var response := fetch(PageUrl(base, param, page));
    if response.None? {
      return Some(FetchFailed), current, merged;
    }
    current := PageLinks(response.value, base, join);
    assert LinksOf(base, param, fetch, join, page) == Some(current);
    if current == [] {
      return Some(EmptyPage), current, merged;
    }
    if SameSorted(current, last) {
      return Some(RepeatedPage), current, merged;
    }
    AppendNewConcat([], Harvest(base, param, fetch, join, page - 1), current);
    merged := MergeLinks(collected, current);
    if !Paginated(param) {
      return Some(SinglePage), current, merged;
    }
    if page + 1 > MaxPages {
      return Some(PageLimit), current, merged;
    }
    stop := None;
  }

  /**
   * The listing loop. It requests pages 1, 2, ... until a page fails to load,
   * is empty, repeats the previous page's links, the site has no pagination,
   * or the page cap is reached; `collected` is every link of the merged pages,
   * once each, in first-seen order.
   */
  method CrawlListing(base: string, param: Option<string>, fetch: Fetcher, join: (string, string) -> string)
    returns (collected: seq<string>, requested: seq<string>, reason: StopReason)
    ensures 1 <= |requested| <= MaxPages
    ensures requested == PageUrls(base, param, |requested|)
    ensures MovesOnBefore(base, param, fetch, join, |requested|)
    ensures StopAt(base, param, fetch, join, |requested|) == Some(reason)
    ensures collected == Dedup(Harvest(base, param, fetch, join, MergedPages(reason, |requested|)))
    ensures NoDups(collected)
  {
    collected := [];
    requested := [];
    var last: seq<string> := [];
    var page: nat := 1;
    while true
      invariant 1 <= page <= MaxPages
      invariant page > 1 ==> Paginated(param)
      invariant requested == PageUrls(base, param, page - 1)
      invariant MovesOnBefore(base, param, fetch, join, page)
      invariant last == PreviousLinks(base, param, fetch, join, page)
      invariant collected == Dedup(Harvest(base, param, fetch, join, page - 1))
      decreases MaxPages - page
    {
      requested := PageUrls(base, param, page);
      var stop;
      stop, last, collected := VisitPage(base, param, fetch, join, page, last, collected);
      if stop.Some? {
        reason := stop.value;
        return;
      }
      MovesOnExtend(base, param, fetch, join, page);
      page := page + 1;
    }
  }

  /** How many requested pages had their links merged, given why the crawl stopped after `k` pages. */
  function MergedPages(reason: StopReason, k: nat): nat {
    if reason.Merged() || k == 0 then k else k - 1
  }

  /**
   * `site_data`: each collected link whose detail page loaded, mapped to its
   * cleaned HTML; links whose page raised are left out.
   */
  method FetchDetails(collected: seq<string>, detail: string -> Option<string>) returns (site: map<string, string>)
    ensures site.Keys == set l | l in collected && detail(l).Some?
    ensures forall l :: l in site ==> detail(l) == Some(site[l])
    ensures |site| <= |collected|
  {
    site := map[];
    for i := 0 to |collected|
      invariant site.Keys == set l | l in collected[..i] && detail(l).Some?
      invariant forall l :: l in site ==> detail(l) == Some(site[l])
    {
      assert collected[..i + 1] == collected[..i] + [collected[i]];
      match detail(collected[i]) {
        case Some(html) => site := site[collected[i] := html];
        case None =>
      }
    }
    assert collected[..|collected|] == collected;
    assert site.Keys <= set l | l in collected;
    SetOfSeqBound(collected);
    SubsetSize(site.Keys, set l | l in collected);
  }

  lemma {:induction false} SubsetSize(a: set<string>, b: set<string>)
    requires a <= b
    ensures |a| <= |b|
    decreases |a|
  {
    if a != {} {
      var x :| x in a;
      SubsetSize(a - {x}, b - {x});
    }
  }

  lemma {:induction false} SetOfSeqBound(s: seq<string>)
    ensures |set l | l in s| <= |s|
    decreases |s|
  {
    if |s| > 0 {
      var t := s[..|s| - 1];
      SetOfSeqBound(t);
      assert (set l | l in s) == (set l | l in t) + {s[|s| - 1]} by {
        assert s == t + [s[|s| - 1]];
      }
    }
  }

  /**
   * `crawl_site_logic`: the listing crawl followed by the detail pages. The
   * crawl requests pages 1, 2, ... and ends at the first page that stops it;
   * the result holds exactly the merged listing links whose detail page loaded,
   * each mapped to its cleaned HTML.
   */
  method CrawlSite(base: string, param: Option<string>, fetch: Fetcher, join: (string, string) -> string, detail: string -> Option<string>)
    returns (site: map<string, string>, requested: seq<string>, reason: StopReason)
    ensures 1 <= |requested| <= MaxPages
    ensures requested == PageUrls(base, param, |requested|)
    ensures MovesOnBefore(base, param, fetch, join, |requested|)
    ensures StopAt(base, param, fetch, join, |requested|) == Some(reason)
    ensures forall l :: l in site <==> l in Harvest(base, param, fetch, join, MergedPages(reason, |requested|)) && detail(l).Some?
    ensures forall l :: l in site ==> detail(l) == Some(site[l])
  {
    var collected;
    collected, requested, reason := CrawlListing(base, param, fetch, join);
    site := FetchDetails(collected, detail);
  }
}
