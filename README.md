# Review analyzer server, modelled in Dafny

This project models the request-handling core of a small review API. The
server keeps a list of customer reviews. Each review has an id, a body, a
location and a `"YYYY-MM-DD HH:MM:SS"` timestamp.

- **GET** filters the list by an optional location, an optional start date and an
  optional end date. It pairs every surviving review with its sentiment score and
  returns them sorted by the score's `compound` value, largest first.
- **POST** checks a submitted body and location against a fixed location
  whitelist (`predefined_location`). It then appends a new review with a fresh id
  and the current time.

Modules, one per component:

- `Wrappers`: `Option` and `Result`.
- `Sequences`: `Keep`, the list comprehension `[x for x in s if p(x)]`, and the
  order-preserving subsequence relation.
- `Timestamps`: `datetime` values at second precision. Fixed-width models of
  `strptime` and `strftime` for `"%Y-%m-%d"` and `"%Y-%m-%d %H:%M:%S"`.
  Chronological order.
- `Reviews`: the review record, the whitelist and the sentiment score.
- `QueryFilters`: the three filter stages of the GET branch and the properties of
  their composition.
- `Ranking`: the loop that builds the response entries and the stable sort. The
  sort is an in-place insertion sort on an array.
- `Server`: the `ReviewStore` class for the module-level `reviews` list. Its
  `Create` method is the POST branch and its `Query` method is the GET branch.

The sentiment analyser is a parameter `score: string -> Sentiment`, so the model
treats it as an unknown pure function. Only its `compound` field, a `real`, is
used for ordering.

Stability of the sort is stated through tie groups. `Ties(s, c)` is the
subsequence of entries whose `compound` is `c`. The sorted output has, for every
`c`, the same tie group as the unsorted entries (`SameTies`). Together with
sortedness this fixes the output completely (`StableSortIsUnique`).

## Model

| member | source | states |
|---|---|---|
| `Sequences.Keep` | server.py:53-55 | A comprehension keeps exactly the elements that satisfy its condition and is never longer than its input. |
| `Sequences.KeepIsSubsequence` | server.py:53-55 | A comprehension's result is an order-preserving subsequence of its input. |
| `Sequences.KeepKeep` | server.py:49-71 | Two comprehensions in a row select the same list as one comprehension over the conjunction of their conditions. |
| `Timestamps.ParseDate` | server.py:59 | A `start_date`/`end_date` text that parses gives a valid calendar day at midnight. |
| `Timestamps.ParseTimestamp` | server.py:62 | A review timestamp that parses gives a valid date and time. |
| `Timestamps.ParseFormatTimestamp` | server.py:117 | A timestamp written by the POST handler parses back to the same time, so new reviews never break the GET filters. |
| `Timestamps.FormatParseTimestamp` | server.py:62 | A text that parses as a timestamp is exactly the zero-padded form of its value. |
| `Timestamps.ParseFormatDate` | server.py:59 | A day written as `YYYY-MM-DD` parses back to the same day. |
| `Timestamps.FormatParseDate` | server.py:59 | A text that parses as a date is exactly the zero-padded form of its value. |
| `Timestamps.ParseMidnightTimestamp` | server.py:59-62 | A date followed by `00:00:00` parses to the same instant as that date alone. |
| `Timestamps.NotAfterIsTotalOrder` | server.py:62 | The field-by-field comparison used on datetimes is a total order. |
| `QueryFilters.FirstUnparsable` | server.py:62 | No text is reported exactly when every review timestamp parses. A reported text belongs to a review that does not parse. |
| `QueryFilters.FilterByLocation` | server.py:52-55 | With a given, whitelisted location, the result holds every occurrence of the reviews at that location and nothing else, in input order. Otherwise the list is returned unchanged, without error. |
| `QueryFilters.FilterByStartDate` | server.py:58-63 | Absent start date: no change. Unparsable start date: error naming `start_date`. Otherwise the result is an ordered subsequence holding exactly the reviews at or after that day's midnight, each as often as in the input. A review timestamp that does not parse is an error. |
| `QueryFilters.FilterByEndDate` | server.py:66-71 | Absent end date: no change. Unparsable end date: error naming `end_date`. Otherwise the result is an ordered subsequence holding exactly the reviews at or before that day's midnight, each as often as in the input. A review timestamp that does not parse is an error. |
| `QueryFilters.RunFilters` | server.py:49-71 | A successful run of the three stages returns an order-preserving subsequence of the list. |
| `QueryFilters.LocationStage` | server.py:52-55 | The location stage is the comprehension over its own condition. |
| `QueryFilters.StartStage` | server.py:58-63 | On parseable input the start-date stage is the comprehension over its own condition. |
| `QueryFilters.EndStage` | server.py:66-71 | On parseable input the end-date stage is the comprehension over its own condition. |
| `QueryFilters.FiltersAreOneConjunction` | server.py:49-71 | The three stages together select, from the original list and in its order, exactly the reviews that satisfy all applicable filters. |
| `QueryFilters.FailsOnlyOnBadDates` | server.py:58-71 | Over parseable reviews a query fails exactly when a given date does not parse. A bad start date is reported before a bad end date. |
| `QueryFilters.StartAfterEndSelectsNothing` | server.py:58-71 | A start date after the end date gives an empty result, not an error. |
| `QueryFilters.MidnightBoundaries` | server.py:58-71 | A review stamped at midnight of the day passes both date filters of that day. A review later on the end day is dropped. |
| `Ranking.SameTiesIsPermutation` | server.py:85 | Keeping every tie group means the output is a permutation of the input. |
| `Ranking.StableSortIsUnique` | server.py:85 | Two lists sorted by `compound` with the same tie groups are equal, so a repeated query over an unchanged list gives the same answer. |
| `Ranking.SortByCompound` | server.py:85 | The in-place sort leaves the array in non-increasing `compound` order, with each tie group in its original order. |
| `Ranking.InsertLeft` | server.py:85 | One insertion step extends the sorted prefix by one entry, keeps every tie group and leaves the entries after it untouched. |
| `Ranking.Rank` | server.py:73-85 | The response holds each filtered review once, with the score of its own body. Entries are in non-increasing `compound` order and equal scores keep their input order. |
| `Server.ValidateIntake` | server.py:108-114 | Success exactly when body and location are given and the location is whitelisted. Otherwise the error is, in this order: missing body, missing location, invalid location, with the handler's messages `missing review_body`, `missing location` and `invalid location`. |
| `Server.ReviewStore.constructor` | server.py:22 | The store starts as the loaded list, which satisfies the list invariant. |
| `Server.ReviewStore.Create` | server.py:105-126 | Error: the reported error is the validation's and the list is unchanged. Success: exactly one review is appended, with the given id, body and location and the formatted time; the list invariant is kept when the id is fresh. |
| `Server.ReviewStore.Query` | server.py:41-85 | Fails exactly when the filters fail, with their error. Otherwise it returns the filtered reviews ranked as `Rank` promises, and the list is not changed. Over a valid list it succeeds exactly when the given dates parse. |
| `Server.QueryOverValidStore` | server.py:49-71 | Over a valid list, a query succeeds exactly when its dates parse, and then selects the conjunction of the filters. |
| `Server.AppendedReviewIsFiltered` | server.py:49-71 | After an append, a query answers the old selection plus the new review at the end when the filters select it. |

## Left out

- The HTTP layer is not modelled: reading `environ`, `parse_qs` on the query string and the form body, `CONTENT_LENGTH` and `wsgi.input`, status lines, headers, JSON encoding, and `make_server`/`serve_forever`. Query parameters arrive as `Option<string>`: absent is `None`, and an empty string counts as absent, as Python truthiness does.
- The 400 response the POST handler gives for exceptions other than the three validation errors (a bad `CONTENT_LENGTH`, undecodable bytes) is not modelled. It comes from the HTTP layer.
- A GET error is a `QueryError` value. In Python it is an uncaught `ValueError` that the WSGI server turns into its own error response.
- The NLTK downloads and the VADER analyser are not modelled. `analyze_sentiment` is the parameter `score`, an arbitrary pure function, and its float arithmetic is not modelled.
- The unused `stop_words` and `adj_noun_pairs_count` are not modelled, and neither is the empty `__init__`.
- Loading the CSV with pandas is not modelled. The `ReviewStore` constructor takes the loaded list and requires every row to be well formed: non-empty body, whitelisted location, parseable timestamp, distinct ids.
- `uuid.uuid4()` and `datetime.now()` are parameters of `Create`. Freshness of the id is a hypothesis of the invariant it keeps.
- `Create`'s `now` is already at second precision. The dropping of microseconds by `strftime` is not modelled.
- Timestamps.ParseDate: Python's `strptime` also accepts unpadded fields (`2024-1-5`), a space-padded day (`2024-01- 5`) and non-ASCII digits. The model accepts only the fixed-width ASCII form, so it returns None for texts that Python would accept. A `start_date` or `end_date` in one of those forms makes the modelled query fail with `BadFilterDate`, where Python filters.
- Timestamps.ParseTimestamp: Python's `strptime` also accepts one-digit hours, minutes and seconds (`2024-01-05 9:30:00`), a space-padded day, several blanks or a tab between date and time, and non-ASCII digits. The model returns None for these. A stored review timestamp in one of those forms makes the modelled date filters fail the whole query with `BadReviewTimestamp`, where Python keeps filtering. Timestamps written by the POST handler are always in the fixed-width form.
- Timestamps.FormatTimestamp: the year is always padded to four digits. The platform-dependent output of `strftime` for years below 1000 is not modelled.
- Response entries nest the review and its sentiment. The JSON objects flatten them into `ReviewId`, `ReviewBody`, `Location`, `Timestamp` and `sentiment`.
- Concurrent POST requests appending to the shared list are not modelled. Every operation runs to completion before the next one starts.
