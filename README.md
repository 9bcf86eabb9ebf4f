# Sauna recommender: a Dafny model of its core logic

The program is a small Flask service (`app.py`). At start-up it reads a CSV
catalog of saunas and parses each row's price text into a number. It drops
rows that lack one of the four attributes used for matching, renumbers the
rows that remain, and builds a `features` text for each of them. A request
to `/recommend` joins three answers into a query text. It scores every
catalog row against that text with TF-IDF cosine similarity, keeps the five
best rows, and returns four display fields of each. A second endpoint,
`/posts`, keeps user posts in a JSON file, newest first.

This project models the parts of that code that are exact logic. Each
module is proved against its own specification:

- `Price`: `clean_price`. The regular expression `(\d{1,3}(,\d{3})*|\d+)` is
  matched the way Python's `re.search` does it. The match starts at the
  first digit. Up to three digits are taken greedily, then as many `,ddd`
  groups as follow; commas are removed and the digits are read as an
  integer. `Search` is proved to be the leftmost match, and no longer
  string of the first alternative starts at that position. Because the
  first alternative succeeds at every digit, the `\d+` alternative is never
  used. So `"1,200円"` gives 1200, `"1200円"` gives 120, and `"応相談"` gives
  no value. These three are proved as lemmas.
- `Catalog`: the frame is a class whose methods change its rows in place.
  `Read` covers `read_csv` and the price column, `DropIncomplete` covers
  `dropna`, `ResetIndex` covers `reset_index`, and `AddFeatures` covers the
  `features` column. The lemmas prove that the surviving rows are exactly
  the CSV rows with all four attributes present, in their original order,
  numbered 0..n-1. They also prove that `features` is the four fields
  joined by single spaces, in a fixed order, and that the fields can be
  recovered from it when none of them contains a space (the beginner-tip
  column is free text, so in general they cannot).
- `Ranking`: `argsort()[:-6:-1]` is modelled as a selection loop. The loop
  is proved to return `min(5, n)` distinct positions in non-increasing score
  order, none scoring below a position left out. Any two answers meeting
  that contract have equal scores at every rank, so only tied rows can
  trade places.
- `Recommend`: the query text with missing answers read as `''`, the
  projection loop, the "no data" error when the catalog failed to load,
  and the start-up sequence.
- `Posts`: the store is a class over the state of `posts.json`.
  `load_posts` reads a missing file, or one that is not valid JSON, as the
  empty list.
  `add_post` refuses a post whose `name` or `content` is missing or empty,
  and leaves the file untouched. Otherwise it stamps the post with the
  given date and puts it first. `GET /posts` returns `Contents()`.
- `Text` (join on single spaces and its inverse split) and `Wrappers`
  (Option/Result) are helpers.

Behaviour of the code worth noting:

- The response's `price` is the raw 料金 text (app.py:77), not the parsed
  number. The parsed 料金_数値 column is computed but never returned.
- Ties are not broken by corpus order. numpy's default `argsort` is not
  stable, so the contract leaves the order among equal scores open.
- `dropna` drops missing cells only. `read_csv` reads an empty field, or one of
  pandas' default NA markers such as `NA`, `N/A`, `NULL` or `nan`, as
  missing, and `dropna` drops those rows. A field holding only spaces is a
  string and its row stays.
- An empty corpus is not turned into a "no data" answer. The vectoriser
  raises an exception that line 41 does not catch (see "Left out").

## Model

| member | source | states |
|---|---|---|
| Price.FirstDigit | app.py:26 | the search position is the first digit at or after the start; every earlier character is not a digit; none means no digit at all |
| Price.LeadLength | app.py:26 | `\d{1,3}` takes at most three digits, and stops before three only at a non-digit or the end of the text |
| Price.GroupsEnd | app.py:26 | `(,\d{3})*` stops where no further `,ddd` group starts |
| Price.GroupsEndLongest | app.py:26 | greediness of `(,\d{3})*`: no run of groups from the same start ends later |
| Price.RemoveCommas | app.py:28 | `replace(',', '')` leaves no comma, and the result is shorter than the input by exactly the number of commas |
| Price.RemoveCommasChar | app.py:28 | `replace(',', '')` drops a comma and keeps any other character |
| Price.RemoveCommasConcat | app.py:28 | `replace(',', '')` of a concatenation is the concatenation of the two removals, so with `RemoveCommasChar` the result is the input's non-comma characters in their order |
| Price.Search | app.py:26 | a match is a non-empty span inside the text |
| Price.SearchIsLeftmostGreedy | app.py:26-27 | no match exactly when the text has no digit; otherwise the match starts at the first digit, lies in `\d{1,3}(,\d{3})*`, and no longer string of that alternative starts there |
| Price.CleanPriceAbsent | app.py:24-29 | `clean_price` gives no value exactly for a non-string cell or a text without a digit |
| Price.UngroupedRunCutAtThree | app.py:26-28 | after leading non-digits, a run of four or more digits with no comma group yields only its first three digits, so a value below 1000, though `\d+` would match at least those four digits |
| Price.ValueBound | app.py:28 | `int` of a k-digit string is a non-negative number below 10^k (used to bound an ungrouped match below 1000) |
| Price.GroupedYen | app.py:24-29 | `"1,200円"` gives 1200 |
| Price.UngroupedYen | app.py:24-29 | `"1200円"` gives 120 |
| Price.NegotiablePrice | app.py:24-29 | `"応相談"` gives no value |
| Catalog.Frame.Read | app.py:23-30 | the frame has one row per CSV row, labelled by position, with 料金_数値 = `clean_price(料金)` |
| Catalog.Frame.DropIncomplete | app.py:31-32 | the rows become those whose four required cells are present, in frame order |
| Catalog.Frame.ResetIndex | app.py:33 | same rows in the same order, each labelled by its position |
| Catalog.Frame.AddFeatures | app.py:34-37 | rows unchanged; one `features` cell per row: the joined text, or missing if a required cell is missing |
| Catalog.OriginsSpec | app.py:31-32 | the reference positions are exactly the complete CSV rows, strictly increasing |
| Catalog.DroppedRows | app.py:31-32 | after `dropna` the k-th row is the loaded row at the k-th complete position, with its original label and parsed price |
| Catalog.CorpusSpec | app.py:30-33 | the corpus is the complete CSV rows in original order, labelled 0..n-1 with no gap, each with its parsed price and all four attributes present; it is no longer than the CSV |
| Catalog.FeatureTextIsJoin | app.py:34-37 | `features` is tip, refresh, sauna and water temperature joined by single spaces, in that order |
| Catalog.FeatureTextFields | app.py:34-37 | `features` is as long as the four fields plus three separators; with no space inside the fields, splitting it at spaces gives the four fields back in order |
| Catalog.CorpusFeaturesPresent | app.py:31-37 | after start-up every corpus row has a `features` value |
| Ranking.BestLeft | app.py:70 | one selection step: a position not yet picked whose score is at least that of every other unpicked position |
| Ranking.TopK | app.py:70 | `min(k, n)` distinct positions below n, in non-increasing score order, each scoring at least as high as every position left out |
| Ranking.TopKScoresDetermined | app.py:70 | any two answers meeting the top-k contract have the same score at every rank, so only tied positions differ |
| Recommend.QueryTextFields | app.py:67 | the query is refresh_type, sauna_temp and water_temp joined by single spaces with missing keys as `''`; its length is theirs plus two; with no space inside them, splitting gives the three answers back |
| Recommend.Collect | app.py:71-79 | one entry per chosen position, in the same order, holding only the name, location, price text and beginner tip of that row |
| Recommend.HandleRecommend | app.py:63-80 | without a catalog, the "no data" error; otherwise `min(5, n)` entries projected from the rows of a valid top-five answer for the query's scores, in that order |
| Recommend.Startup | app.py:21-43 | a missing CSV leaves no frame; otherwise the frame's rows are the normalised corpus and each has its `features` cell |
| Posts.Stamped | app.py:91 | the stamped post has every field of the request plus `date`, which is set (or overwritten) to the given time |
| Posts.PostStore.SavePostData | app.py:55-59 | the file then holds the new post first and the previously loaded posts after it in their order; the list grows by one |
| Posts.PostStore.AddPost | app.py:87-93 | a missing or empty `name` or `content` is refused with the 400 error and the file is unchanged; otherwise the stamped post is returned and becomes element 0, with the earlier posts following |

## Left out

- Flask routing, CORS, `send_from_directory`, `jsonify` and `app.run` (app.py:2-18, 95-96) are HTTP transport. HTTP status codes appear only as constants.
- `print` logging (app.py:40, 42, 66) has no effect on results.
- Price.CleanPrice: Python's limit on `int()` of text longer than 4300 digits (CPython 3.11 on, and the 3.10.7 and 3.9.14 security releases) is not modelled. Such a match, for example "10" followed by 1433 copies of ",000", makes app.py:28 raise `ValueError`; app.py:41 does not catch it, so start-up stops, while the model returns the number.
- `pd.read_csv` and CSV decoding (app.py:22-23). The rows enter as a sequence of records whose cells are already missing where pandas reads an empty field or a default NA marker, and a missing file (`FileNotFoundError`, app.py:41-43) enters as `None`.
- Other start-up failures, such as an undecodable CSV, or an empty corpus for which `TfidfVectorizer` raises "empty vocabulary". They are not caught at app.py:41, so the process stops. The model has no state for that.
- `TfidfVectorizer.fit_transform`/`transform` and `cosine_similarity` (app.py:38-39, 68-69) are library floating-point numerics. They enter as the `similarity` parameter: one score per corpus row for a query text.
- A cell is either a string or missing. A non-string price (NaN, or a number when pandas reads the column as numeric) is treated as missing, which is what `clean_price` does with it.
- Price.IsDigit: only ASCII and full-width digits are treated as `\d`. Python's `\d` and `int` also accept the decimal digits of other scripts.
- Request bodies are modelled as string-valued maps. Python's formatting of non-string answers in the f-string, the truthiness of non-string `name`/`content` values, and a request with no JSON body are not modelled.
- Read errors of `posts.json` other than a decoding failure are not modelled. Only `json.JSONDecodeError` is caught (app.py:52). A file that is not valid UTF-8 raises `UnicodeDecodeError` while it is read (app.py:51), and an OS error on opening raises too; both propagate out of the request.
- JSON encoding of `posts.json` is not modelled. A file that decodes to something other than a list would make `insert` fail, and that case is not modelled either.
- `datetime.now().strftime('%Y/%m/%d %H:%M')` (app.py:91) is passed in as an already formatted string.
- Recommend.HandleRecommend: the order among equal scores is not stated, because numpy's default `argsort` is not stable and promises none.
- Writes to `posts.json` are treated as atomic. Concurrent requests are not modelled.
