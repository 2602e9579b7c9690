# cinema-scraper, modelled in Dafny

This project models the data-handling core of `scraper.py`. That script scrapes
the "now showing" movies of a cinema listing site and keeps one spreadsheet row
per movie up to date. The model covers five parts, each proved against its own
specification:

- **The merge** (`merge_data`) reconciles freshly scraped rows with the rows
  already stored. A scraped field replaces a stored one only when it is truthy
  and not the `"N/A"` placeholder. The scrape date is always replaced. The
  result is one row per title, sorted by title.
- **The page parser** (`parse_showtimes_from_html`) reads the children of the
  showtimes list. They are abstracted as cinema anchors, each with the text of
  its bold element if it has one, and blocks holding their show-time texts. The
  parser builds a dict from cinema to its sorted, deduplicated times.
- **The session walker** (`scrape_aggregated_showtimes`) steps through the
  date dropdown of an ASP.NET page. Each new date is requested with a postback
  that carries the `__VIEWSTATE` and `__EVENTVALIDATION` tokens of the previous
  reply, and each date's page is parsed.
- **The regrouping** (step 5 of the walker) turns the per-date dicts
  (date → cinema → times) into one entry per cinema. Each entry lists that
  cinema's showings, date by date.
- **Two row rules.** The first truncates the showtimes cell to the sheet's
  character budget. The second computes the running time in minutes from the
  "Running Time" text.

Python semantics the code relies on are modelled explicitly:

- **Insertion-ordered dicts** (`OrderedDict.ODict`). Assigning to a key that is
  already present keeps its place.
- **Truthiness and the `"N/A"` sentinel** (`Records.Truthy`,
  `Records.Overrides`).
- **`str` ordering** by code point (`Lex.Less`, proved to be a strict total
  order).
- **`sorted(list(set(xs)))`** (`Lex.SortedUnique`).

Each imperative function of the source is a `method` with loops and their
invariants: `Reconciler.MergeData`, `Reconciler.UpdateFields`,
`Showtimes.ParseShowtimes`, `Restructure.Regrouped` and
`SessionWalker.ScrapeAggregatedShowtimes`, whose postback loop is the method
`SessionWalker.PostDates`. They are specified in two ways:

- `UpdateFields`, `ParseShowtimes` and `Regrouped` are proved equal to a
  specification function (`Overlay`, `ParsedPage`, `Regroup`).
- `MergeData` is characterised title by title. Each output row is that title's
  `MergedRecord`, and the titles are strictly ascending.
- `ScrapeAggregatedShowtimes` and `PostDates` are characterised by relations
  over the sequence of posts and their outcomes. `PostsFollow` says which
  posts are sent and with which tokens. `StoppedOnlyOnFailure` says when the
  walk ends early. The result is `Regroup` of the dates collected from the
  successful replies.

The properties are lemmas about these functions, in the companion
`...Properties` modules.

I/O is replaced by parameters:

- The first GET of the walker is a `GetOutcome` value.
- The server answering the postbacks is a function from (index of the post,
  form data) to the outcome of that post.
- The scrape date of a row is a given value rather than the clock.

Two behaviours of the code differ from what its comments and structure
suggest. The model follows the code:

- **Truncation.** The comment on `SHEETS_CELL_CHAR_LIMIT` (scraper.py:32,
  "be safe") suggests a stored cell stays within 49900 characters. The code
  at scraper.py:292-294 cuts to 49900 characters and then *appends* the
  14-character marker, so a truncated cell holds 49914 characters. That is
  still under the sheet's 50000 limit
  (`RecordBuilderProperties.TruncatedLength`).
- **Partial results.** Dates collected before a failing postback are kept only
  when the postback is *answered* with a status other than 200, because that
  case `break`s out of the loop (scraper.py:186-188). A postback that raises
  (a transport error) lands in the `except` clause (scraper.py:212-214), and
  the whole walk returns `'N/A'`, discarding the dates already collected.

## Model

| member | source | states |
|---|---|---|
| Lex.SortedUnique | scraper.py:137-138 | `sorted(list(set(xs)))`: the result is strictly ascending in code-point order and holds exactly the elements of `xs` |
| Lex.StrictlySortedUnique | scraper.py:137-138 | two strictly ascending lists with the same elements are equal, so the sorted-deduplicated list is determined by the set of times |
| Lex.LessTotal | scraper.py:104 | Python's string order is total: of two distinct strings one is below the other |
| Lex.LessTransitive | scraper.py:104 | Python's string order is transitive |
| OrderedDict.FirstAppearances | scraper.py:205-206 | the key order of a dict filled from a sequence is duplicate-free and holds exactly the sequence's elements |
| OrderedDictProperties.FirstAppearancesOrder | scraper.py:205-206 | a key listed before another was seen before the other's first occurrence |
| Records.Truthy | scraper.py:96 | Python truthiness of a cell value: false exactly for `""`, `0` and a missing value |
| Records.Overrides | scraper.py:96 | the test `value and value != 'N/A'`: a scraped value may replace a stored one exactly when it is none of `""`, `0`, a missing value or `"N/A"` |
| Reconciler.Overlay | scraper.py:93-97 | a stored row after one scraped row of its title is folded in: every stored field is still present, and the scrape date is the scraped one (the full per-field rule is OverlayFields) |
| Reconciler.OverlayFields | scraper.py:95-97 | field rule for one scraped row over a stored row: a scraped field replaces the stored one exactly when it is truthy and not "N/A"; other stored fields are kept; the scrape date is always the scraped one |
| Reconciler.UpdateFields | scraper.py:95-97 | the loop over the scraped row's fields yields exactly the overlay of the field rule |
| Reconciler.SortedByTitleRows | scraper.py:104 | the rows in sorted-key order have strictly ascending titles, one per stored title, each the stored row |
| Reconciler.SortedByTitle | scraper.py:104 | the sort of the stored rows by title: every output row is one of the stored rows |
| Reconciler.MergedStoreKeys | scraper.py:87-103 | after merging a batch, the store's titles are the stored titles plus the batch's titles, and every row is still filed under its own title |
| Reconciler.MergedStoreRecord | scraper.py:87-103 | after merging a batch, each title's row is its stored row (or its first scraped row) overlaid with its scraped rows in batch order |
| Reconciler.MergeData | scraper.py:86-104 | the output rows are strictly ascending by title, one per stored or scraped title, and each is that title's merged record |
| ReconcilerProperties.MergeNeverErases | scraper.py:96 | a stored field with a real value (truthy, not "N/A") still has a real value after the merge, except the scrape date |
| ReconcilerProperties.MergeTakesLatestScrapeDate | scraper.py:97 | a title present in the batch gets the scrape date of its last scraped row |
| ReconcilerProperties.MergeKeepsUntouched | scraper.py:87-104 | a stored title not in the batch comes through unchanged |
| ReconcilerProperties.MergeInsertsNew | scraper.py:98-101 | a title scraped once and not stored before is exactly the scraped row |
| ReconcilerProperties.MergeUpdatesFields | scraper.py:93-97 | for a stored title scraped once: which keys the merged row has, and for each key whether its value is the scraped one, the stored one or the new scrape date |
| ReconcilerProperties.MergeExample | scraper.py:93-97 | a stored genre "Action" survives an "N/A" scrape, and the scrape date becomes 2024-02-01 |
| Showtimes.ParseShowtimes | scraper.py:120-139 | the two loops return exactly the dict `ParsedPage` of the elements |
| Showtimes.ParsedPage | scraper.py:120-139 | the dict the parser returns, defined from the element list: a well-formed insertion-ordered dict (its meaning is given by ParsedPageKeys and ParsedPageTimes) |
| ShowtimesProperties.ParsedPageShape | scraper.py:122-139 | the parsed dict is well formed, its cinemas are duplicate-free, and every time list is strictly ascending |
| ShowtimesProperties.ParsedPageKeys | scraper.py:126-131 | a cinema is a key exactly when some anchor's bold text is that cinema |
| ShowtimesProperties.ParsedPageTimes | scraper.py:132-135 | a time is in a cinema's list exactly when some block shows that non-empty time while that cinema is the current one |
| ShowtimesProperties.PlaceholderCinemaEmpty | scraper.py:134 | a cinema whose bold text is "N/A" is a key with an empty list |
| ShowtimesProperties.LeadingBlocksDropped | scraper.py:124-135 | blocks before the first bolded anchor contribute nothing to the result |
| Restructure.Regrouped | scraper.py:200-210 | the nested loops over the dated dicts return exactly `Regroup` of the visits in iteration order |
| Restructure.Regroup | scraper.py:200-209 | the regrouped list, defined from the visits: every entry names a cinema that some date lists (RegroupedCinemas gives the converse) |
| RestructureProperties.RegroupedDistinct | scraper.py:205-206 | no two entries have the same cinema name |
| RestructureProperties.RegroupedCinemas | scraper.py:202-206 | there is an entry for a cinema exactly when some date's dict lists it |
| RestructureProperties.RegroupedFirstAppearance | scraper.py:205-210 | entries follow the order in which cinemas were first met, date by date and cinema by cinema |
| RestructureProperties.RegroupedShowings | scraper.py:202-207 | each entry's showings are one per visited date whose dict lists the cinema, with that date's times |
| RestructureProperties.ShowingsForMembers | scraper.py:202-207 | a showing (date, times) is listed for a cinema exactly when that date's dict maps the cinema to those times |
| RestructureProperties.ShowingsForOrdered | scraper.py:202-207 | showings appear in the order the dates were visited |
| SessionWalker.ScrapeAggregatedShowtimes | scraper.py:141-214 | 'N/A' with no POST when the GET fails or there is no dropdown or no valued option; otherwise: one POST per further date, in order, with the tokens of the latest successful reply; every POST but the last answered 200; an early stop only after a non-200 or a raised POST; 'N/A' exactly when a POST raised; otherwise the regrouped dates collected from the successful replies |
| SessionWalker.PostDates | scraper.py:171-198 | the postback loop: its posts follow the token chain in date order, it stops early only after a POST that was not answered with 200, `failed` holds exactly when the last POST raised, and otherwise the collected dates are CollectedDates of the outcomes |
| SessionWalker.ValuedOptions | scraper.py:158 | the options with a truthy `value`: no more of them than options, and each with a non-empty value |
| SessionWalker.DateChoices | scraper.py:158-159 | at most MAX_DAYS_TO_SCRAPE (5) options, a prefix of the valued options, and all of them when there are fewer than 5 |
| SessionWalker.InitialTokens | scraper.py:161-162 | the first page's `__VIEWSTATE` and `__EVENTVALIDATION`, or `""` for a token the page lacks |
| SessionWalker.Refreshed | scraper.py:195-198 | tokens after a 200 reply: a token the reply carries is replaced by its value, a token it lacks is kept |
| SessionWalker.TokensAfter | scraper.py:171-198 | the tokens sent with the next post: the first page's tokens as long as no post has succeeded |
| SessionWalker.CollectedDates | scraper.py:166-193 | the dated dicts collected from the first page and the successful replies stay well formed |
| SessionWalkerProperties.ValuedOptionsMembers | scraper.py:158 | an option is kept exactly when its value attribute is present and non-empty, with its text as label |
| SessionWalkerProperties.ValuedOptionsAppend | scraper.py:158 | kept options are in document order |
| SessionWalkerProperties.DateChoicesBound | scraper.py:159 | at most MAX_DAYS_TO_SCRAPE (5) dates, namely the first valued options |
| SessionWalkerProperties.AtMostFourPosts | scraper.py:171 | at most four postbacks |
| SessionWalkerProperties.FirstPostTokens | scraper.py:161-182 | the first postback carries the first page's tokens, or "" for a token the page lacks, targets the date dropdown and sends the second date's value |
| SessionWalkerProperties.TokenKept | scraper.py:195-198 | a token that no successful reply carried is still the first page's |
| SessionWalkerProperties.TokenFromLatestReply | scraper.py:195-198 | otherwise a token is the value carried by the latest successful reply that carried it |
| SessionWalkerProperties.FailureKeepsCollected | scraper.py:186-188 | a postback not answered with 200 leaves the collected dates unchanged |
| SessionWalkerProperties.CollectedLabels | scraper.py:166-193 | with every postback successful, the collected dates are the distinct visited labels in first-visit order |
| SessionWalkerProperties.LatestVisitWins | scraper.py:193 | a label visited more than once holds the page of its latest visit |
| RecordBuilder.TruncateForCell | scraper.py:292-294 | the stored showtimes cell: at most 49914 characters, data of at most 49900 characters unchanged, longer data its first 49900 characters followed by the 14-character marker |
| RecordBuilderProperties.TruncatedLength | scraper.py:292-294 | the stored showtimes cell has at most 49914 characters, under the cell limit of 50000 |
| RecordBuilderProperties.ShortDataKept | scraper.py:292 | data of at most 49900 characters is stored unchanged |
| RecordBuilderProperties.LongDataCut | scraper.py:292-294 | longer data becomes its first 49900 characters followed by "...[TRUNCATED]" |
| RecordBuilderProperties.TruncateIdempotent | scraper.py:292-294 | truncating a stored cell again changes nothing |
| RecordBuilder.Search | scraper.py:263-264 | `re.search` returns the leftmost position where the pattern matches, or nothing when no position matches |
| RecordBuilderProperties.MatchIsGreedy | scraper.py:263-264 | the greedy match agrees with the declarative reading of `(\d+)\s*word`, and the only split takes the whole digit and whitespace runs, so group 1 is the whole digit run |
| RecordBuilderProperties.LeftmostStartsRun | scraper.py:263-264 | the leftmost match starts at the beginning of a run of digits |
| RecordBuilder.Captured | scraper.py:263-264 | `int(m.group(1))` of the leftmost match, 0 without one: a positive value only when the pattern matched |
| RecordBuilder.RunningTimeMinutes | scraper.py:262-265 | `Running Time (Minutes)`: a positive number of minutes, or `'N/A'`; a number only when the hours or the minutes pattern matched |
| RecordBuilderProperties.RunningTimeRule | scraper.py:262-265 | the running time is 60·hours + minutes when that is positive, and 'N/A' exactly when both are 0; a running time replaces a stored one in the merge exactly when it is a number |
| RecordBuilderProperties.HoursAndMinutes | scraper.py:262-265 | "2 Hours 15 Minutes" gives 135 |
| RecordBuilderProperties.MinsIsNotMinutes | scraper.py:264 | "1 Hour 30 Mins" gives 60: "Mins" does not match the minutes pattern |
| RecordBuilderProperties.MissingRunningTime | scraper.py:262-265 | an 'N/A' running time gives 'N/A' |

## Left out

- **Network and sheet I/O** (httpx, gspread, `download_image`, `get_master_worksheet`, `update_master_sheet`): outside the core. The walker's GET and POSTs are parameters.
- **`asyncio.sleep`, the clock and all `print`s, including the update/new counters of `merge_data`**: no effect on the data. The scrape date is an input value.
- **BeautifulSoup selection and HTML parsing**: the list children, bold texts, show-time texts, dropdown options and token fields are inputs, already extracted.
- **The metadata regexes** (lines 258-260), the description, the release date's `strptime` (line 269) and the showtimes-link search: not part of this model. The running-time text is an input string.
- **`json.dumps`**: the walker returns the list of cinema entries, not its serialization. The truncation rule is stated for any string.
- **The top-level movie loop of `main_scraper` and the `__main__` handler**: they only sequence the modelled parts.
- **`MAX_DAYS_TO_SCRAPE if ... else date_options`** (line 159): the constant is 5, which is truthy, so only the truncating branch is modelled.
- **Token elements without a `value` attribute**: `.get("value")` would give `None`, which is not modelled. A token is either absent or a string.
- **Exceptions other than a failed GET or a raised POST**: not modelled. The parser cannot raise a `KeyError` at line 135: the first `ensures` of `Showtimes.StepBlock` shows that the current cinema, when it is not `'N/A'`, is always a key.
- RecordBuilder.Search: `\d` is modelled as ASCII `0`-`9`, and `re.I` as ASCII case folding. Python also matches other Unicode decimal digits, and non-ASCII case variants such as the dotless `ı` for `i`.
- Reconciler.MergeData: requires every stored row to be filed under its own text title, which is how `read_master_sheet` builds the dict (line 81). A sheet cell that gspread returns as a number is not modelled; sorting would then raise `TypeError`.
- **Aliasing**: `merge_data`'s shallow `copy()` means updates also mutate the caller's stored row objects and, for repeated titles, the scraped row objects. The model works on values. The returned rows are the same.
