# Competitor promotion monitor — a Dafny model of its core

The competitor monitor crawls the event and notice boards of several
competitors once a day. It keeps one snapshot per site, mapping each event URL
to the cleaned HTML of that event's page. It compares today's snapshot with
yesterday's and reports every URL that is new, deleted or updated. It saves
today's snapshot as the baseline for tomorrow, and sends either a change
report or a "no changes today" notice.

This project models the three parts of `main.py` that decide what gets
reported and what gets remembered:

- **Listing crawl control** (`listing.dfy`, module `Listing`).
  - Builds the page URL: `base?param=N` or `base&param=N`, or the bare base
    URL when the site is not paginated.
  - Filters the anchors of each list page with the keyword rule, resolving
    root-relative links.
  - Deduplicates links in first-seen order and merges them into the links
    collected so far.
  - Stops on a fetch failure, an empty page, a page whose sorted links equal
    the previous page's, an unpaginated site, or the ten-page cap.
  - Loads every collected detail page; a failed detail load drops that link.
- **Per-URL diff classifier** (`diff.dfy`, module `Diff`).
  - Labels each URL in the union of today's and yesterday's key sets as New,
    Deleted, Updated or Unchanged.
  - Compares bodies after deleting every ASCII space, `.replace(" ", "")`,
    and nothing else.
  - Counts the changes of one site.
- **Run assembly, summary and persistence** (`report.dfy`, module `Report`).
  - Builds `today_results` in insertion order, skipping competitors whose
    crawl raised.
  - Compares every crawled site against yesterday's snapshot and builds the
    total and the per-site summary.
  - Saves today's results in both branches.
  - Decides between the change report and the no-change notice.

Supporting modules:

- `text.dfy` (`Text`): the space-stripping normaliser, prefix, suffix and
  substring tests, and decimal rendering of page numbers.
- `seqs.dfy` (`Seqs`): insertion-ordered deduplication and its
  characterisation.
- `wrappers.dfy` (`Wrappers`): `Option`.

Modelling choices:

- **The browser is an oracle.** `fetch(url)` gives the page's anchors, one
  `Option<string>` href per anchor; `None` means the page raised, so the crawl
  stops. A `None` href stands for both a missing attribute and a
  `get_attribute` exception, and `crawl_site_logic` skips the anchor in both cases.
- **Detail pages** are a second oracle, `detail(link)`. It returns the cleaned
  HTML, or `None` when the load raised.
- **URL joining** is an opaque function parameter `join`.
- **Pagination.** Python treats `None` and `""` alike for the pagination
  parameter, so `Some("")` counts as "not paginated".
- **Sorted lists.** `sorted(a) == sorted(b)` holds exactly when `a` and `b`
  are equal as multisets, and the model states it that way.
- **`today_results`** is a Python dict, which keeps insertion order. It is
  modelled as an ordered list of names plus a map (`Report.Results`), and
  re-assigning a key keeps its first position.
- **JSON.** Writing and re-reading `latest_data.json` is the identity on the
  map of maps. A missing file is the empty snapshot.
- **Set iteration order.** The order in which the per-site loop visits
  `all_urls` is arbitrary. `Diff.CountSiteChanges` picks URLs
  nondeterministically, and its result does not depend on the order.

## Model

| member | source | states |
|---|---|---|
| Text.StripSpaces | main.py:278 | The compared form of a body contains no space and is no longer than the body. What else it keeps is stated by Text.StripSpacesKeepsOthers, Text.StripSpacesFixed (a space-free body is its own compared form, which fixes the order of the kept characters), Text.InsertSpaceInvisible and Text.InsertNonSpaceVisible. |
| Text.StripSpacesKeepsOthers | main.py:278 | The comparison normaliser removes only the space character: every other character, newlines and tabs included, occurs as often after normalising as before. |
| Text.StripSpacesFixed | main.py:278 | Normalising is idempotent, and a text without spaces is its own normal form. |
| Text.InsertSpaceInvisible | main.py:278 | Inserting a space anywhere in a body does not change its compared form. |
| Text.InsertNonSpaceVisible | main.py:278 | Inserting any other character, such as a newline or a tab, always changes its compared form. |
| Text.DecimalRoundTrip | main.py:112 | The page number rendered into the URL reads back as the same number. |
| Listing.PageUrl | main.py:110-114 | Without a pagination parameter the URL is the base URL. With one, the URL has the base URL as a prefix, then `&` if the base already has a `?` and `?` otherwise, and ends with `param=N`; its length accounts for exactly these parts. |
| Listing.PageUrlInjective | main.py:110-114 | On a paginated site, distinct page numbers give distinct URLs, so no list page is requested twice. |
| Listing.PageUrlsAt | main.py:105-112 | The k-th URL requested is the URL of page k+1, starting at page 1. |
| Listing.Accepted | main.py:142-144 | The link filter: an href is kept when it is present and non-empty, contains one of event/view/detail/notice, does not start with `#` and does not contain `javascript`. Listing.KeptSound and Listing.KeptComplete state that the kept list is exactly the accepted links. |
| Listing.Resolve | main.py:146-148 | An accepted href that starts with `/` is joined to the base URL, and any other href is kept as it is. Listing.KeptSound and Listing.KeptComplete state that every kept link is resolved this way. |
| Listing.KeptSound | main.py:140-148 | Every kept link is the resolved form of an anchor whose href is present and non-empty, contains one of event/view/detail/notice, does not start with `#` and does not contain `javascript`. |
| Listing.KeptComplete | main.py:140-148 | Every anchor that passes the filter contributes its resolved link. |
| Listing.PageLinks | main.py:137-153 | A page's link list holds exactly the accepted, resolved links, without duplicates, each at its first occurrence in anchor order. |
| Listing.MergeLinks | main.py:163-165 | Merging keeps the already collected links in place, adds exactly the new ones, and keeps the list free of duplicates. |
| Seqs.DedupFirstSeen | main.py:150-151 | First-seen deduplication yields each element once, in order of first occurrence. |
| Seqs.FirstSeenDeterminesDedup | main.py:150-151 | Any duplicate-free list with the same elements in first-occurrence order is exactly the deduplicated list. |
| Seqs.AppendNewConcat | main.py:163-165 | Merging page after page equals deduplicating all pages' links at once. |
| Listing.UnpaginatedStopsAtFirstPage | main.py:167 | Without a pagination parameter the crawl never moves past the first page, whatever that page holds. |
| Listing.UnpaginatedSingleRequest | main.py:167 | A crawl of an unpaginated site that moved on from every page before its last request made exactly one request; with Listing.CrawlListing this gives one request per unpaginated site. |
| Listing.CapStops | main.py:169-171 | The crawl never moves on from the tenth page or any later one, so at most ten list pages are requested. |
| Listing.StopAt | main.py:157-171 | The reference stopping rule for one page: a failed load, then an empty page, then links equal as sorted lists to the previous page's, then an unpaginated site, then the ten-page cap; otherwise the crawl moves on. Listing.VisitPage and Listing.CrawlListing are proved to follow it. |
| Listing.VisitPage | main.py:110-171 | One iteration either stops, for the first applicable reason in the order `crawl_site_logic` tests them, or moves on with this page's links as the new "previous page". The merged list grows only when the page was not rejected as empty or repeated. |
| Listing.CrawlListing | main.py:103-175 | Requests between 1 and 10 pages, namely pages 1, 2, … in order. Every page but the last moves on, and the last stops for the reason returned. The collected links are the deduplicated links of every merged page, in first-seen order. |
| Listing.FetchDetails | main.py:180-192 | The detail map has exactly the collected links whose page loaded as keys, each with its loaded content, and is no larger than the link list. |
| Listing.CrawlSite | main.py:92-192 | The crawl requests pages 1, 2, ... and ends at the first page that stops it, at most ten; a link appears in the site's result exactly when it was harvested from a merged list page and its detail page loaded. |
| Diff.Classify | main.py:263-281 | The `if`/`elif` chain that labels one URL. Diff.ClassifyMatchesClasses states its meaning independently of the test order, and Diff.Partition states that the labels are disjoint and cover every URL. |
| Diff.ClassifyMatchesClasses | main.py:263-281 | A URL is labelled New exactly when only today has it, Deleted exactly when only yesterday has it, Updated exactly when both have it with different space-stripped bodies, and Unchanged otherwise. |
| Diff.Partition | main.py:261-281 | The four label classes cover the union of both days' URLs and are pairwise disjoint. |
| Diff.ChangedUrlsSplit | main.py:283-285 | The changed URLs are exactly the New, Deleted and Updated ones. |
| Diff.ChangeCountSplit | main.py:283-285 | The change count of a site is the number of new URLs plus deleted plus updated. |
| Diff.NoChangeIff | main.py:261-285 | A site reports zero changes exactly when both days have the same URLs with the same space-stripped bodies. |
| Diff.CountSiteChanges | main.py:257-285 | Visiting the URLs in any order counts exactly the changed URLs, and the count is zero exactly when there is nothing to report. |
| Diff.SelfCompareQuiet | main.py:261-285 | Comparing a site against itself reports nothing. |
| Diff.SpaceEditQuiet | main.py:278 | A body that differs from yesterday's by one space inserted at any position of one page is not reported; any edit that leaves the space-stripped bodies equal is covered by Diff.NoChangeIff. |
| Diff.OtherWhitespaceEditReported | main.py:278-281 | A body that differs only by an inserted newline, tab or other character is reported, and as Updated. |
| Diff.MissingSiteAllNew | main.py:260-269 | A site missing from yesterday's snapshot has every URL reported as New. |
| Diff.SwapDays | main.py:267-281 | Swapping the two days swaps New and Deleted and keeps Updated. |
| Report.Assign | main.py:236 | Assigning a site's result keeps the ordered-dict shape: the map is updated at that name, earlier names keep their positions, and names stay unique. |
| Report.CollectResults | main.py:231-238 | `today_results` holds exactly the competitors whose crawl did not raise, each once. |
| Report.CollectResultsLookup | main.py:234-238 | A competitor is stored with the result of its last successful crawl, and is absent exactly when every crawl under its name raised. |
| Report.CollectResultsOrder | main.py:231-238 | The keys of `today_results` are ordered by each competitor's first successful crawl, which is the order the comparison loop and `company_summary` follow. |
| Report.PreviousPages | main.py:260 | `yesterday_results.get(name, {})`: yesterday's pages for the site, or none. Report.CompareSite states that a site missing yesterday has every URL counted. |
| Report.TotalChanges | main.py:283-289 | The reference total: the change counts of today's sites, summed in iteration order. Report.CompareSites computes it, and Report.SummaryFacts states that it is the sum of the listed counts. |
| Report.Summary | main.py:287-290 | The reference `company_summary`: each site with a positive count, with that count, in iteration order. Report.SummaryFacts and Report.CompareSnapshots state which sites it lists. |
| Report.SummaryFacts | main.py:283-290 | The summary lists exactly the sites with a positive change count, each with its count, and the total is the sum of those counts. |
| Report.CompareSite | main.py:256-285 | A site's change count is computed against yesterday's pages for that name, or against nothing, in which case it counts every URL. |
| Report.CompareSites | main.py:256-290 | The comparison loop yields the reference total and the reference summary. |
| Report.CompareSnapshots | main.py:251-290 | Every summary entry is a site crawled today, with that site's own change count, which is positive. Every site crawled today with changes is listed with its count. The total is the sum of the listed counts, and is zero exactly when the summary is empty. |
| Report.VanishedSiteIgnored | main.py:256-260 | Yesterday's pages for a site that was not crawled today affect neither the total nor the summary. |
| Report.Finish | main.py:295-336 | Today's results are saved in both branches. A change report goes out exactly when some site crawled today changed. It carries the computed total and `company_summary`: a non-empty summary whose counts add up to the total, listing every changed site of today with its own count and nothing else. |
| Report.RepeatRunIsQuiet | main.py:314-336 | Running again on the same crawl, against the snapshot just saved by either branch (change report or no-change notice), sends the no-change notice. |
| Report.FailedCrawlForgetsSite | main.py:234-238 | A site whose crawl raised is missing from the saved snapshot, so the next run reports all of its URLs as new. |

## Left out

- Browser I/O is abstracted into the `fetch` and `detail` oracles. This
  covers `setup_driver`, `driver.get`, `remove_popups`, `time.sleep`, and the
  `WebDriverWait` on `target_selector` with its fallback to the whole
  document. The selector only changes which anchors the oracle returns.
- `clean_html` is left out. Its output is whatever `detail` returns, because
  it is an HTML parser the model cannot see.
- `urljoin` is the opaque parameter `join`. URL resolution is a foreign
  library function.
- The report's HTML is left out: `difflib.HtmlDiff` tables, the per-URL
  change fragments, the header, the report file, and the `print` progress
  messages. The model keeps what the HTML is built from: labels, counts,
  summary entries and the total.
- The Slack webhook post is not modelled as I/O. The model decides which
  notice is sent, but not whether the webhook URL is configured.
- The model does not fix the order of report entries within a site. It
  follows Python set iteration order, which is arbitrary.
- `json.dump` / `json.load` are the identity: UTF-8 text with
  `ensure_ascii=False` round-trips `str` values.
- The competitor list's constants and `TODAY_STR` are left out. They are
  configuration and clock values.
- `monitor_crawler.py` and the workflow scripts are not part of this model.
- Listing.CrawlListing: a generic `except Exception` around a list page is
  modelled only as the oracle returning `None` for that page. A crash inside
  link handling is covered by the per-anchor `None` href.
- Diff.CountSiteChanges: integer overflow does not arise, because Python
  integers are unbounded.
