# Wikipedia link chains and access-log statistics, in Dafny

This project models two small Python programs and proves properties of the models.

**The link-chain finder** (`python/phil/phil.py`) searches breadth-first for a chain of Wikipedia articles. The chain runs from a start page to a page whose name equals a target, ignoring case. The model covers:

- `find_chain` (`ChainSearch.FindChain`) and its inner loop over the links of one page (`ChainSearch.ExpandPage`, `ChainSearch.VisitLink`);
- `make_chain`, which walks the parent links back from the found page and reverses the walk (`ChainSearch.MakeChain`);
- the pure helpers, in `LinkFilter`:
  - `extract_content`, which finds the offsets of the article body and of the footer;
  - `is_wikipedia_article`, the article-link filter;
  - `extract_page_name`, which removes "/wiki/", cuts at the offset of '#' in the original link and percent-decodes;
  - `extract_links`, which collects the names of the accepted anchors.

The outside world is a `Web` value with three functions: the page download, the `href` of every anchor element of an HTML text, and percent-decoding. `LinkGraph` turns a `Web` into the graph of article links that the search explores.

The proofs about the search establish these facts:

- A returned chain starts at `start`, each page on it is a link of the one before it, and its last page matches the target.
- No chain of links from `start` to a matching page is shorter than the returned one.
- When the search gives up, no such chain exists, and every page reachable from `start` was downloaded.
- No page is downloaded twice, and no page is inserted twice into `visited`.
- When `start` already matches the target, nothing is downloaded.

**The log analyser** (`python/logs_classes/log_script.py`, and `python/logs/log_script.py`, whose `get_params`, `most_popular_page` and `most_active_client` are identical to their counterparts in the class version; it has none of the other statistics) is modelled in `LogStats`, over log entries that are already parsed:

- `get_params` splits the command line into log files and `--` statistic names;
- the most requested page, the most active client and the most used browser are chosen by counting with a `defaultdict`, then taking the largest count, with the smaller key in string order on a tie;
- the slowest request and the fastest request;
- the busiest client on a single day.

Each selection is proved to return the unique element that satisfies a declarative characterisation:

- The page, client and browser selections do not depend on dict iteration order. At most one key is the top key.
- The busiest client-day does depend on it. Two days of the same client with the same count are separated by the order of the inner `dates` dict, so the day that first appears in the log wins (`LogStats.Beats`). The model takes that order as part of its input.

Python semantics are written out explicitly where the code relies on them, mostly in `Strings`:

- `str.find`;
- slicing with clamped bounds;
- `replace(pat, '')`;
- `lower()`;
- string `<`, which is lexicographic by code point.

Wherever the code and its prose description disagree, the model follows the code:

- A link that contains '#' is rejected by the filter. It is not cut at the anchor, so "/wiki/Foo#Section" contributes no name at all (`LinkFilter.AnchoredHrefDropped`).
- The filter accepts further '/' segments after "/wiki/".
- `extract_content` does not ensure that the body offset comes before the footer offset.
- A page that cannot be downloaded is skipped, and the search goes on.
- `extract_page_name` cuts `result` at the offset that '#' has in the original link. That offset is six characters too far for each "/wiki/" removed before the '#' (see "## Findings"). `LinkFilter.ExtractPageName` models this cut as written. The corrected cut is `LinkFilter.PageTitle`. The filter rejects every link with a '#', so the links that the search sees are the same under either cut (`LinkFilter.AcceptedLinkHasNoAnchor`).

## Model

| member | source | states |
|---|---|---|
| Sequences.Reverse | python/phil/phil.py:89 | `chain[::-1]` has the same length as its input, and element i is the input's element at len-1-i |
| Sequences.DistinctByCount | python/phil/phil.py:65-79 | a log with exactly as many entries as it has distinct elements has no repeated entry |
| Sequences.DistinctBound | python/phil/phil.py:66-67 | a log without repeats whose entries lie in a finite set is no longer than that set |
| Strings.Find | python/phil/phil.py:25-26 | `find` returns -1 exactly when the pattern does not occur; otherwise it returns the first offset where the pattern occurs |
| Strings.FindAfter | python/phil/phil.py:54 | the first occurrence of a character directly follows any prefix that lacks it |
| Strings.Slice | python/phil/phil.py:33 | `page[begin:end]` is the substring when the bounds are in order and in range, empty when `end <= begin`, and never longer than the page |
| Strings.RemoveAll | python/phil/phil.py:53 | `replace('/wiki/', '')` scans left to right without overlap; the result is never longer than the text |
| Strings.RemoveAllChars | python/phil/phil.py:53 | removing every occurrence of a pattern never introduces a character |
| Strings.RemoveAllAbsent | python/phil/phil.py:53 | when the first character of the pattern is absent from the text, `replace` leaves the text unchanged |
| Strings.LowerChar | python/phil/phil.py:61 | the lower-case mapping of one character; its result is never a capital letter that the mapping would change again |
| Strings.Lower | python/phil/phil.py:61 | the modelled `lower()` (see the `lower()` line under "## Left out") maps each character through `LowerChar` and keeps the length |
| Strings.SameIgnoringCase | python/phil/phil.py:74 | the per-character comparison that `link.lower() == finish.lower()` performs; `SameIgnoringCaseIsLowerEqual` characterises it |
| Strings.SameIgnoringCaseIsLowerEqual | python/phil/phil.py:61 | the per-character case-insensitive comparison holds exactly when the two `lower()` results are equal |
| Strings.LexLess | python/logs_classes/log_script.py:114 | `page < most_popular`: lexicographic by code point, a proper prefix first; the three lemmas below show it is a strict total order |
| Strings.LexLessTrichotomy | python/logs_classes/log_script.py:114 | for any two strings, exactly one holds: they are equal, the first is `<` the second, or the reverse |
| Strings.LexLessTransitive | python/logs_classes/log_script.py:114 | string `<` is transitive |
| Strings.LexLessIrreflexive | python/logs_classes/log_script.py:114 | no string is `<` itself |
| LinkFilter.ExtractContent | python/phil/phil.py:20-29 | returns (0, 0) for a missing page or a missing marker; otherwise the first offsets of both markers, each within the page, with no order between them |
| LinkFilter.IsWikipediaArticle | python/phil/phil.py:45-49 | no ':' and a match of `^/wiki/[^#]+$`, where `$` also matches before a final newline; `IsWikipediaArticleExactly` characterises it |
| LinkFilter.NoHashTailExactly | python/phil/phil.py:48 | `[^#]*$` matches a text exactly when the text contains no '#' |
| LinkFilter.IsWikipediaArticleExactly | python/phil/phil.py:45-49 | a link is accepted exactly when it has no ':', starts with "/wiki/", and has at least one more character, none of them '#' |
| LinkFilter.PageTitle | python/phil/phil.py:53-56 | the corrected title: a prefix of the link with every "/wiki/" removed, free of '#', and cut exactly at the first '#' when there is one |
| LinkFilter.AnchorOffsetMisplaced | python/phil/phil.py:54-56 | as written, for "/wiki/<title>#<section>" the cut keeps the '#' and up to five characters of the section |
| LinkFilter.AnchorCutInTitle | python/phil/phil.py:53-56 | the corrected cut gives exactly `<title>` for the same links |
| LinkFilter.AcceptedLinkHasNoAnchor | python/phil/phil.py:38-39 | on every link the filter accepts, the as-written cut and the corrected cut agree, and both leave the text with "/wiki/" removed |
| LinkFilter.PageTitleAsWritten | python/phil/phil.py:53-56 | the title as the code cuts it, every "/wiki/" removed and then cut at the offset of '#' in the original link; always a prefix of the text with "/wiki/" removed |
| LinkFilter.TitleWithoutAnchor | python/phil/phil.py:53-56 | on a link without '#', both cuts leave exactly the text with every "/wiki/" removed |
| LinkFilter.ExtractPageName | python/phil/phil.py:52-57 | with the cut as written: None exactly when nothing is left once "/wiki/" is removed, or the link starts with '#'; otherwise the decoded as-written title |
| LinkFilter.PageNameWithoutAnchor | python/phil/phil.py:52-57 | on a link without '#', the name is the decoded text with "/wiki/" removed, or None when that text is empty |
| LinkFilter.PageNameKeepsAnchor | python/phil/phil.py:52-57 | on "/wiki/<title>#<section>", the name is the decoded `<title>#` followed by up to five characters of the section |
| LinkFilter.EmptyTitleAccepted | python/phil/phil.py:38-40 | the accepted link "/wiki//wiki/" still yields no name |
| LinkFilter.KeptName | python/phil/phil.py:37-40 | an anchor contributes a name only when its href is present, passes the filter, and gives a non-empty name |
| LinkFilter.LinkSet | python/phil/phil.py:35-41 | the set of names the anchors contribute, in document order; `LinkSetMembers` characterises it |
| LinkFilter.LinkSetMembers | python/phil/phil.py:36-41 | a name is collected exactly when some anchor element keeps it |
| LinkFilter.ExtractedNamesAreArticles | python/phil/phil.py:32-42 | every extracted name is non-empty and is the decoded title of an href with no ':' and no '#' that starts with "/wiki/" followed by more text |
| LinkFilter.AnchoredHrefDropped | python/phil/phil.py:38-41 | an href containing '#' contributes no name |
| LinkFilter.ExtractLinks | python/phil/phil.py:32-42 | the returned list has no repeats and holds exactly the names the anchors of the content window keep |
| ChainSearch.EmptyWindowNoLinks | python/phil/phil.py:27-33 | when the parser finds no anchor in the empty text, a downloaded page with a missing marker, or with the footer before the body, has no links |
| ChainSearch.Neighbors | python/phil/phil.py:68-72 | the links read off a page: None exactly when the download fails, otherwise the names the anchors of the content window keep |
| ChainSearch.LinkGraph | python/phil/phil.py:68-72 | the graph the search explores, with one `Neighbors` entry per page; `ReadPage` ties it to the list the loop reads |
| ChainSearch.MakeChain | python/phil/phil.py:83-89 | the chain ends at the found page, starts at a root, has one entry per level of depth plus one, and each entry's parent is the entry before it |
| ChainSearch.ParentChainIsPath | python/phil/phil.py:83-89 | a parent-link chain from the root of the discovery tree is a path of links that starts at `start` |
| ChainSearch.PathsStayRecorded | python/phil/phil.py:73-79 | once every page shallower than d has been expanded, every path from `start` of at most d links ends at a recorded page, no deeper than the path's length |
| ChainSearch.SearchStarts | python/phil/phil.py:63-65 | the first state (only `start` queued and recorded, as root at depth 0) satisfies the search invariant |
| ChainSearch.Dequeue | python/phil/phil.py:66-67 | taking the head of the FIFO queue keeps the invariant; the head has the current level, or the next level once the current one is used up |
| ChainSearch.FetchLogDistinct | python/phil/phil.py:67-68 | the pages downloaded so far, and the keys inserted into `visited`, contain no repeats |
| ChainSearch.RecordLink | python/phil/phil.py:77-79 | recording a new, non-matching link under `current` and queueing it keeps the invariant, with the link one level deeper |
| ChainSearch.FoundLink | python/phil/phil.py:74-75 | recording the matching link keeps the discovery tree and the insertion count, and bounds every chain from below by the link's depth plus one |
| ChainSearch.ChainIsShortest | python/phil/phil.py:74-76 | when the target is met among the links of a page at depth `level`, every chain has at least `level + 2` pages |
| ChainSearch.AdvanceNew | python/phil/phil.py:77-79 | after a new link is recorded, the first i+1 links of the page are recorded |
| ChainSearch.AdvanceRecorded | python/phil/phil.py:77 | a link that is already recorded is skipped without changing the state |
| ChainSearch.FoundStep | python/phil/phil.py:74-76 | a matching link ends the page's loop in the found state |
| ChainSearch.VisitLink | python/phil/phil.py:74-79 | one pass of the inner loop: a match is recorded and ends the loop; a new link is recorded and queued; a recorded link changes nothing |
| ChainSearch.Recorded | python/phil/phil.py:73-79 | `visited` after the loop has gone through a list of links without a match |
| ChainSearch.NewLinks | python/phil/phil.py:77-79 | what the loop appends to the queue: the links not yet recorded, each at its first occurrence, in order |
| ChainSearch.RecordEffect | python/phil/phil.py:75-78 | the loop adds exactly the page's links to `visited`, keeps every parent already recorded, and gives each new page `current` as its parent |
| ChainSearch.NewLinksEffect | python/phil/phil.py:77-79 | the queued links are exactly the links not recorded before, without repeats |
| ChainSearch.RecordStep | python/phil/phil.py:74-79 | one pass of the loop extends `visited` by one link; without a match, it also extends the queue by one link |
| ChainSearch.ExpandPage | python/phil/phil.py:73-79 | without a match, `visited` and the queue become `Recorded` and the old queue plus `NewLinks`, no link matches, and the page is fully expanded; at the first matching link, both are extended up to that link, the earlier links do not match, and the shortest-chain bound holds |
| ChainSearch.FinishExpansion | python/phil/phil.py:69-79 | once every link of the current page is recorded (none, for a page that cannot be downloaded), all downloaded pages are expanded |
| ChainSearch.FinishPage | python/phil/phil.py:73-79 | after the whole link list, every link of the page is recorded |
| ChainSearch.FoundChain | python/phil/phil.py:75-76 | the chain walked back from the found page is a chain from `start`, no chain is shorter, and the insertion log has no repeats |
| ChainSearch.SearchExhausted | python/phil/phil.py:66-80 | when the queue is empty, every page reachable from `start` was downloaded and none matches the target |
| ChainSearch.ReadPage | python/phil/phil.py:68-72 | the links read off a downloaded page are exactly its edges in the link graph |
| ChainSearch.FindChain | python/phil/phil.py:60-80 | a trivial match gives `[start]` with no download; a returned chain is a chain of links, and is no longer than any other; None means no chain exists and every reachable page was downloaded; no page is downloaded or inserted twice |
| LogStats.StatArgs | python/logs_classes/log_script.py:12-13 | every statistic name, with "--" put back, is one of the arguments |
| LogStats.FileArgs | python/logs_classes/log_script.py:14-15 | every listed file is one of the arguments and does not start with "--" |
| LogStats.GetParams | python/logs_classes/log_script.py:8-16 | the two lists are the file arguments and the `--` arguments with the prefix removed |
| LogStats.ParamsPartition | python/logs/log_script.py:6-14 | every argument lands in exactly one list: the list lengths add up, a non-`--` argument is among the files, and a `--` argument is among the statistics without its prefix |
| LogStats.FilesKeepOrder | python/logs/log_script.py:9-13 | the file list is a subsequence of the arguments, so original order is kept |
| LogStats.StatsKeepOrder | python/logs_classes/log_script.py:11-13 | with "--" restored, the statistic names are a subsequence of the arguments |
| LogStats.Present | python/logs/log_script.py:50-54 | the keys that some entry carries |
| LogStats.CountKeys | python/logs/log_script.py:50-54 | the counter is `Tallies(keys)`: exactly the present keys, each counted as often as it occurs; the iteration order lists each key once |
| LogStats.SelectMostFrequent | python/logs/log_script.py:55-64 | returns (None, -1) exactly for an empty counter; otherwise the key with the largest count (the smallest in string order on a tie) and that count |
| LogStats.MostFrequent | python/logs/log_script.py:49-64 | returns (None, -1) exactly when no entry carries a key; otherwise the top key and the number of entries that carry it |
| LogStats.TopKeyUnique | python/logs_classes/log_script.py:107-116 | at most one key is the top key, so the choice does not depend on dict iteration order |
| LogStats.TopKeyIgnoresOrder | python/logs_classes/log_script.py:102-106 | the top key depends only on how often each key occurs, not on the order of the entries |
| LogStats.MostPopularPage | python/logs_classes/log_script.py:101-116 | returns (None, -1) exactly when no entry has a page; otherwise the page requested most often (the smallest on a tie) and its number of requests |
| LogStats.MostActiveClient | python/logs/log_script.py:67-82 | returns (None, -1) exactly when no entry has an ip; otherwise the ip with the most requests (the smallest on a tie) and that count |
| LogStats.MostPopularBrowser | python/logs_classes/log_script.py:135-151 | the same selection over browser names; None exactly when no entry has a user agent |
| LogStats.BrowserName | python/logs_classes/log_script.py:140 | the browser name is the part of the user agent before the first '/', or the whole agent when it has no '/' |
| LogStats.BrowserOfProduct | python/logs_classes/log_script.py:140 | "<product>/<version>", where product has no '/', gives back exactly the product |
| LogStats.SlowestPage | python/logs_classes/log_script.py:54-66 | None exactly for no entries; otherwise the last entry with the largest time, where a missing time counts as 0 |
| LogStats.LastSlowestUnique | python/logs_classes/log_script.py:63-65 | at most one entry is the last one with the largest time |
| LogStats.FastestPage | python/logs_classes/log_script.py:68-78 | as written: None exactly when no entry has a time at most 9999999999999; otherwise the last entry of smallest time among those |
| LogStats.CeilingHidesSlowEntry | python/logs_classes/log_script.py:69 | for an entry with time 10000000000000, the entry has a time but is never considered by the as-written loop; the uncapped characterisation does choose it |
| LogStats.FastestPageCorrected | python/logs_classes/log_script.py:68-78 | None exactly when no entry has a time; otherwise the last entry of smallest time among all timed entries |
| LogStats.LastFastestUnique | python/logs_classes/log_script.py:75-77 | at most one entry is the last one with the smallest time |
| LogStats.TakeOver | python/logs_classes/log_script.py:167-172 | a client-day with more requests, or as many requests and a smaller ip, becomes the pick and beats every pair seen so far |
| LogStats.KeepPick | python/logs_classes/log_script.py:167-169 | otherwise the current pick also beats the new pair; for the same client, the earlier day wins |
| LogStats.MostActiveClientByDay | python/logs_classes/log_script.py:162-173 | returns (None, -1, None) exactly when there are no client-days; otherwise the client-day with the most requests, the smaller ip on a tie, and the first day for that client |
| LogStats.BusiestDayUnique | python/logs_classes/log_script.py:165-172 | when ips are distinct, at most one client-day is the busiest |

## Left out

- The network download in `get_content` (python/phil/phil.py:11-17) is the `fetch` function of `Web`. A failed download is `None`. The model assumes that downloading the same page twice gives the same content, which matters little because no page is downloaded twice.
- The HTML parsing with BeautifulSoup (python/phil/phil.py:34-36) is the `anchors` function of `Web`. It gives the `href` of each anchor element, or None when the element has none. The model assumes the parser finds no anchor element in the empty text (`ChainSearch.ParsesEmpty`). Only `ChainSearch.EmptyWindowNoLinks` relies on that assumption. Without it, the model leaves open which links a page with an empty content window has.
- Percent-decoding with `unquote` (python/phil/phil.py:57) is the uninterpreted `unquote` function.
- `lower()` is modelled only for the Latin and Cyrillic capital letters (A–Z, А–Я, Ѐ–Џ). Every other character is left unchanged, and Unicode case mappings beyond these are not modelled.
- ChainSearch.FindChain: the source may run forever on an infinite link graph. The model requires a finite, ghost set of pages that holds `start` and is closed under links. That set serves only to prove termination. On an infinite graph the source can also stop, when the target is reachable; the model leaves those runs out too.
- LinkFilter.ExtractLinks: the order of the returned list, which is a Python set's iteration order, is left unspecified. Only its elements and the absence of repeats are stated.
- LogStats.CountKeys: it does not state that the key order is the order of first occurrence. It only states that each counted key is listed once.
- `main` in python/phil/phil.py:92-100 calls `find_chain` with fixed arguments and prints the chain.
- Log-line parsing with a regular expression (`make_log_entry`, python/logs_classes/log_script.py:24-46 and python/logs/log_script.py:17-39) is left out. So are file reading in `parse_logfile` and the printing and dispatch in `analyze` and `main`, which are I/O. Entries are taken as already-parsed `LogEntry` records.
- The `LogAnalyzer` class has no counterpart. Its only state is the two argument lists for `analyze`. Its statistic methods read no state, so they are modelled as functions of `LogStats`.
- `__slowest_page_avg` (python/logs_classes/log_script.py:80-99) computes floating-point averages with `statistics.mean`.
- The counting loop of `__most_active_client_by_day` (python/logs_classes/log_script.py:154-161) parses dates with `datetime.strptime`. `MostActiveClientByDay` takes the counted activity instead. That input lists one item per ip, in dict order, and each item holds its days and request counts. The day is a type parameter.

## Findings

| source | as written | input that shows it | evidently intended | confidence | as-written member | corrected member |
|---|---|---|---|---|---|---|
| python/phil/phil.py:54-56 | the offset of '#' is computed on `link` but used to cut `result`, which is `link` with every "/wiki/" removed, so the cut falls six characters too far for each "/wiki/" removed before the '#' | "/wiki/Foo#Section" gives "Foo#Secti" | cut at the '#' of `result`, which gives "Foo" | high for the function; the case cannot arise through `extract_links`, whose filter rejects '#' (`LinkFilter.AcceptedLinkHasNoAnchor`); not executed | LinkFilter.AnchorOffsetMisplaced | LinkFilter.AnchorCutInTitle |
| python/logs_classes/log_script.py:69 | the running minimum starts at 9999999999999, so an entry slower than that is never chosen | a single entry whose processing time is 10000000000000 gives None | the fastest of all entries that have a time | low; the constant may be meant as a practical bound; not executed | LogStats.CeilingHidesSlowEntry | LogStats.FastestPageCorrected |
