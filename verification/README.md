# xrpl-monitor page watcher, modelled in Dafny

`monitor.py` polls five web pages (Ripple, XRPL Foundation, Circle, Tether,
XRPLF on GitHub). It looks for a fixed list of stablecoin and integration
keywords. It alerts a Telegram chat when a page that mentions one of them
has changed since the last run. This project models the part of that
script whose behaviour can be stated, as pure functions over immutable
values:

- `Text` (text.dfy): Python's `str.strip()`, `str.lower()` (ASCII letters)
  and the substring test `k in s`. The substring test comes with a
  positional characterisation.
- `Matching` (matching.dfy): `find_matches`. It gives the keywords found in
  the lower-cased page text, and the title entries collected from `<h1>`,
  `<h2>`, `<h3>` and `<a>` elements.
- `Summary` (summary.dfy): the alert record and its message text, with
  at most three title entries as bullets.
- `Monitor` (monitor.dfy): the per-page step of `main` and the whole run
  over the configured pages. The step skips empty fetches and pages without
  keywords. It compares fingerprints under the key `name:url`. On a change
  it overwrites that key, persists the map and sends one alert.
- `Wrappers` (wrappers.dfy): `Option`, standing for Python's `None`.

Fetching, parsing and fingerprinting are parameters of the model:

- `fetch` maps a URL to a body. It returns the empty string on any failure,
  as `fetch` does.
- `parse` maps a body to a `Page`: the text BeautifulSoup extracts and the
  elements in document order.
- `fp` is the content fingerprint.

The outside-world actions of a run are an ordered list of effects. A
`Persist` effect is a `save_seen` of the whole map. A `Send` effect is a
`send_telegram` of one alert. This makes "persisted before sent" and "one
alert per change" statable without mutable state.

`main` writes the new fingerprint into `seen` and calls `save_seen` before
it calls `send_telegram`, and it ignores what `send_telegram` returns
(monitor.py:95-96, 103). So the model's step updates and persists the map
whether or not the message is delivered.

## Model

| member | source | states |
|---|---|---|
| Text.IsSpaceAscii | monitor.py:61 | of the characters `strip()` removes, the ASCII ones are exactly space, tab, line feed, vertical tab, form feed, carriage return and 0x1C-0x1F, and never a letter or digit |
| Text.Strip | monitor.py:61 | the stripped title is the slice of the element text with only Python white space around it, and it neither starts nor ends with white space |
| Text.StripEmpty | monitor.py:61-62 | a stripped text is empty, and the element is skipped, exactly when the element text is all white space |
| Text.StripIdempotent | monitor.py:61 | stripping an already stripped title changes nothing |
| Text.LowerSpec | monitor.py:57-63 | the model's ASCII `.lower()` keeps the length, leaves no upper-case ASCII letter, maps each upper-case letter to its lower-case partner and keeps every other character |
| Text.ContainsIff | monitor.py:58 | Python's `k in text` holds exactly when `k` occurs at some position of `text` |
| Text.ContainsTransitive | monitor.py:58 | an occurrence of a keyword inside an occurring string is an occurrence in the text |
| Text.LowerContains | monitor.py:57-58 | lower-casing the text and the needle keeps every occurrence |
| Matching.KeywordsDistinct | monitor.py:22-25 | the keyword list has no repeated keyword and every keyword is already lower case |
| Matching.KeywordsIn | monitor.py:58 | the comprehension keeps exactly the keywords occurring in the text, in list order, with no repeats |
| Matching.AnyKeyword | monitor.py:64-68 | the inner loop finds a match exactly when some keyword occurs in the lower-cased title |
| Matching.TitleOf | monitor.py:66-67 | an entry carries a link only when its element is an `<a>`, and then it is that element's `href`; a heading never carries one |
| Matching.OneTagTitles | monitor.py:60-68 | the loop over one element yields that element's entry exactly when it is an `h1`, `h2`, `h3` or `a`, its stripped text is non-empty and some keyword occurs in that text lower-cased, and yields nothing otherwise |
| Matching.QualifyingIndices | monitor.py:60-65 | the positions of the elements that yield an entry, each once and in increasing order |
| Matching.Titles | monitor.py:59-68 | each element adds at most one entry, because of the `break`, so there are never more entries than elements |
| Matching.TitlesInDocumentOrder | monitor.py:59-68 | the `j`-th entry is the entry of the `j`-th element that yields one, and there is one entry per such element: repeats are kept and nothing else is added, dropped or reordered |
| Matching.TitlesSound | monitor.py:60-67 | every entry comes from a heading or link whose stripped, lower-cased text contains a keyword |
| Matching.TitlesComplete | monitor.py:60-67 | every such heading or link contributes its entry |
| Matching.FindMatches | monitor.py:55-69 | `matches` is exactly the keywords occurring in the lower-cased page text, a repeat-free subsequence of the keyword list; `titles` is, entry by entry, the entries of the qualifying elements in document order |
| Matching.TitleEntries | monitor.py:61-67 | a title entry is non-empty, stripped and contains a keyword; it comes from one qualifying element, its title is that element's stripped text, and its link is that element's `href` for an `<a>` and none for a heading |
| Matching.CaseInsensitiveMatch | monitor.py:57-58 | any upper/lower-case spelling of a keyword in the page text makes that keyword match |
| Matching.UpperCaseUsdcMatches | monitor.py:57-58 | "USDC" in the page text matches the keyword "usdc" |
| Matching.EurInsideEuro | monitor.py:24 | matching is by substring, not by word: a page matching "euro" always matches "eur" too |
| Matching.EuropeMatchesEur | monitor.py:58 | a page that mentions only "Europe" matches both "euro" and "eur" |
| Summary.Excerpts | monitor.py:100 | `titles[:3]` is the prefix of the title entries of length min(3, number of entries) |
| Summary.MakeAlert | monitor.py:97-102 | an alert names the page, its URL, the matched keywords and the time, and lists the first min(3, n) title entries in order |
| Summary.LinkPart | monitor.py:101 | a bullet gets a link suffix exactly when the entry's link is present and non-empty |
| Summary.BulletLineShows | monitor.py:101-102 | a bullet line starts a new line with the bullet, shows the title, shows the link when there is one, and is only bullet and title when there is none |
| Summary.Join | monitor.py:98 | `', '.join(matches)` starts with the first keyword and shows every keyword |
| Summary.Header | monitor.py:98 | the header shows the page name, the URL, every matched keyword and the time |
| Summary.BulletsConcat | monitor.py:100-102 | the bullet loop appends exactly the bullet lines of the listed entries, in order, and nothing else |
| Summary.Render | monitor.py:98-102 | the message is the header followed by the bullet lines of the listed entries in order and nothing else; it starts with the header and shows every listed entry |
| Summary.AlertMessage | monitor.py:97-103 | the message for a changed page is its header followed by the bullet lines of the first min(3, n) title entries in document order, so at most three bullets |
| Monitor.MarkerInjective | monitor.py:91 | when neither name contains a colon, two pages get the same `name:url` marker exactly when they are the same page |
| Monitor.ColonFreeMarkersDetermineUrl | monitor.py:91 | pages whose names have no colon never collide on a marker |
| Monitor.PageStep | monitor.py:86-103 | an empty body, or no matched keyword, or an equal stored fingerprint, leaves the map unchanged and sends nothing; otherwise only the page's marker is set to the new fingerprint, the map is persisted and then exactly one alert is sent; the map changes exactly when an alert is sent |
| Monitor.AlertContents | monitor.py:89-103 | a sent alert names the page, lists only keywords found in the page (at least one) and at most three entries, each containing a keyword |
| Monitor.Run | monitor.py:83-104 | a run sends at most as many alerts as there are pages, never sends before persisting, and leaves on disk exactly the map it ends with |
| Monitor.RunSends | monitor.py:85-103 | every alert a run sends is, at the run's time, the alert of one of its pages, and that page has a non-empty body with a keyword |
| Monitor.RunOneAlertPerPage | monitor.py:85-103 | over distinct pages, no two alerts of a run are for the same page |
| Monitor.RunWrites | monitor.py:85-96 | a run never removes a key, never touches a key that is not one of its pages' markers, and only writes a page's fingerprint under that page's marker |
| Monitor.StepIdempotent | monitor.py:91-96 | with a deterministic fingerprint, a second step on the same body sends nothing and changes nothing |
| Monitor.RunFromSettled | monitor.py:85-96 | when every triggering page already has its current fingerprint stored, a run sends nothing and changes nothing |
| Monitor.RunSettles | monitor.py:85-96 | after a run every triggering page has its current fingerprint stored, when pages sharing a marker share a URL |
| Monitor.RunIdempotent | monitor.py:84-104 | with a deterministic fingerprint, and when pages sharing a marker share a URL (as the configured pages do), a second run over unchanged pages sends no alert and leaves the map as it was |
| Monitor.PagesDistinct | monitor.py:13-19 | the five configured pages are pairwise distinct, so a run over them alerts at most once per page |
| Monitor.PagesMarkersDistinct | monitor.py:13-19 | the five configured pages have distinct `name:url` markers |
| Monitor.PageStepSaltedHash | monitor.py:92-96 | with the salted hash of the code, the step alerts exactly when the page triggers and the stored value differs from this process's hash |
| Monitor.SaltedHashRealerts | monitor.py:92-96 | two runs in processes whose salts hash the same unchanged page differently both alert |

## Left out

- HTTP fetching (`fetch`, `requests.get`, status and exception handling): network I/O. Its result is only a URL-to-body parameter that yields the empty string on failure.
- HTML parsing (BeautifulSoup, `get_text`, `find_all`, `tag.get("href")`): a foreign library. A parsed page is an input. The model applies the element-name filter of `find_all` itself. The model's `parse` is total: BeautifulSoup can reject markup with an exception (`ParserRejectedMarkup`), which nothing in `find_matches` or `main` catches, so the real run would end there.
- Python's `hash`: salted per process. The model's fingerprint is a deterministic parameter; the salted form appears only in the Findings members.
- `load_seen` / `save_seen` (JSON file I/O): the map is an in-memory `map<string, string>`, and a save is a `Persist` effect carrying the whole map. A missing or unreadable file (read as an empty map) and non-string values in the file are not modelled. A failing `save_seen` (monitor.py:51-53, called at 96) is not modelled either: nothing catches its exception, so the real program then skips that page's alert, skips every remaining page and ends with an error, whereas the model's `Persist` always succeeds and `Run` always visits every page.
- `send_telegram`: an external service. Its configuration check, the HTTP POST, HTML parse mode and its boolean result (which `main` ignores) are out. A `Send` effect stands for the call.
- `datetime.utcnow()` timestamps and the midnight heartbeat: wall-clock time. A run takes the timestamp string as a parameter, shared by all its alerts.
- Logging via `print`, `SLEEP_SECONDS`, `HEADERS` and `SEEN_FILE`: no behaviour to state.
- Text.Lower: folds only the ASCII letters, whereas Python's `str.lower()` folds all of Unicode (for example, the Kelvin sign lowers to "k"). Non-ASCII text that lowers into a keyword is not modelled.
- Monitor.RunSettles: needs pages that share a `name:url` marker to share a URL. A name containing ':' could make two different pages collide on one marker. Names without a colon always satisfy the condition (Monitor.ColonFreeMarkersDetermineUrl), and so do the configured pages (Monitor.PagesMarkersDistinct).

## Findings

| source | as written | input that shows it | evidently intended | confidence | as-written member | corrected member |
|---|---|---|---|---|---|---|
| monitor.py:92 | the fingerprint is `str(hash(html))`, and CPython salts string hashes with a random seed per interpreter process | the same unchanged page, with a keyword, fetched by two scheduled runs (each a fresh process whose seeds hash it differently) | a fingerprint that is stable across processes, so unchanged content alerts only once | high; not executed | Monitor.SaltedHashRealerts | Monitor.RunIdempotent |
