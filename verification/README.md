# OpenAlex formula co-occurrence counter, modelled in Dafny

The script counts, for each pair of formula names, how many OpenAlex works
mention both names in their full text. It also lists those works. For every
pair it:

- builds the search expression `"left" AND "right"`;
- pages through the works endpoint with cursor paging (`cursor=*` first, then
  each response's `meta.next_cursor`);
- tries each request up to four times, with a growing back-off between tries;
- reads the count from the first response whose `meta.count` is non-zero;
- turns every record into a row of seven fields, with defaults for missing
  fields;
- absorbs any failure of a pair as a count of 0 with no rows, and goes on
  with the next pair.

The model covers these parts:

- `Query` builds the search expression. A parser is its partner: it reads
  the names back when they hold no quote.
- `Retry` is the retrying GET over a list of attempt outcomes. The network
  is that list: each attempt either fails with a message or delivers a
  decoded JSON body. An attempt past the end of the list fails with
  "no response". Sleeping is recorded as a list of back-off multipliers.
- `Json` is a JSON value, with Python's truthiness, `dict.get` with a
  default, `int()` and `str()` on such values. `Numerals` holds the decimal
  text of integers, both ways.
- `Records` turns one search record into a work row.
- `Paging` is the `while cursor` loop of one pair.
  - A transcript gives one list of attempt outcomes per request, in request
    order. What request `j` is answered with does not depend on the cursor
    it carries, so the loop runs over the answers of all requests.
  - Every exception the loop body can raise is a `Malformed` failure of the
    pair. These are: a body that is not an object, a `meta` that is not an
    object, a failing `int()` on the count, a `results` that cannot be
    iterated, a record that is not an object, and a truthy
    `primary_location` or `source` that is not an object.
  - A request that fails on every attempt is an `Unreachable` failure.
  - `Page` and `PageJson` describe the well-shaped responses the service
    documents. The pagination properties are stated over them.
- `Runner` is the per-pair loop of `main`: one summary row per pair and the
  concatenated works.

## Model

| member | source | states |
|---|---|---|
| Query.BuildQuery | openalex_cooccurrence.py:52-55 | the query is a quote, the left name, the text `" AND "`, the right name and a quote, with nothing escaped; its length is the two lengths plus 9 |
| Query.QueryRoundTrip | openalex_cooccurrence.py:52-55 | for names without a double quote, the query determines the pair: parsing it gives back both names |
| Query.ParsedQueryRebuilds | openalex_cooccurrence.py:52-55 | any text the parser accepts is exactly the query of the two quote-free names it returns |
| Query.QueryAmbiguous | openalex_cooccurrence.py:52-55 | since embedded quotes are not escaped, the pairs (x`" AND "`y, z) and (x, y`" AND "`z) produce the same query |
| Query.QueryNotInjective | openalex_cooccurrence.py:52-55 | the query does not determine the pair: two pairs with different left names have the same query |
| Numerals.Digits | openalex_cooccurrence.py:154 | the decimal digits of a natural number: at least one digit, no leading zero, and their value is the number |
| Numerals.IntToString | openalex_cooccurrence.py:154 | `str(n)` for an integer: `int()` reads the text back as `n`; digits without a leading zero, with a minus sign exactly for negatives |
| Retry.Try | openalex_cooccurrence.py:59-68 | the retry loop from attempt `k` on: never more than `retries` attempts in total; it stops at the first delivered body; the waits so far are the multipliers 1..k |
| Retry.Get | openalex_cooccurrence.py:58-68 | at most `retries` attempts. On success, the attempt used is the first one that delivered, its body is returned, and the waits were 1..k-1 for success at attempt k. On failure, every allowed attempt failed, all `retries` were made, and the waits were 1..retries-1 with no wait after the last attempt. The error carries the URL and the last attempt's message (none when `retries <= 0`) |
| Retry.FirstBodyLocated | openalex_cooccurrence.py:58-68 | the recursive reference "first delivered body within the limit" agrees with the positional description: none means every allowed attempt failed, and some means a first delivering attempt exists |
| Retry.GetReturnsFirstBody | openalex_cooccurrence.py:58-68 | the retrying GET returns exactly the first body delivered within the limit, and fails exactly when there is none |
| Records.ExtractRow | openalex_cooccurrence.py:91-105 | a record gives a row exactly when the code does not raise on it, i.e. unless it is not an object or its `primary_location` or `source` is truthy but not an object. The row carries the pair. `id`, `display_name` and `doi` are copied when present (a null stays null) and are "" when absent. The year is "" when absent, "None" when null, the decimal text of an integer, and `str()` otherwise. The venue is the source's `display_name` when that is truthy, and "" otherwise, including when any level of the path is absent or null |
| Records.ExtractAll | openalex_cooccurrence.py:91-105 | the records give rows exactly when every record is extractable; then there is one row per record, in order, each being that record's row |
| Paging.Parse | openalex_cooccurrence.py:88-111 | the loop body on one response, count apart. It fails unless the body is an object. The loop goes on only with a truthy cursor. Every row carries the pair |
| Paging.AnswerTo | openalex_cooccurrence.py:86-111 | one request: the retrying GET with four attempts, then the loop body. There is no answer exactly when none of the four attempts delivers a body, and it comes with the fourth attempt's error message. Otherwise the first delivered body is answered with what the loop body makes of it: `Garbled` when it raises, the reply when it does not. Answered rows carry the pair |
| Paging.AnswerAtAnswers | openalex_cooccurrence.py:58-68 | a request past the end of the transcript gets the answer an empty attempt list gives, i.e. no response |
| Paging.Crawl | openalex_cooccurrence.py:77-111 | the loop from request `j` on. It sends at least one request and at most one per remaining answer plus one. The first request carries the current cursor. A failure names the last request sent. A non-zero count is never re-read |
| Paging.CrawlCarries | openalex_cooccurrence.py:95-98 | every row returned by the loop carries the pair |
| Paging.Fetch | openalex_cooccurrence.py:71-113 | a pair's fetch starts with cursor `*`. It sends at most one request per transcript entry plus one. A failure names the last request. On success every row carries the pair |
| Paging.ParsePage | openalex_cooccurrence.py:88-111 | on a well-shaped page the body reads `meta.count` (0 when absent) and makes every record a row. It keeps `next_cursor`, or "" when that is absent, null or empty. It goes on exactly when the cursor is non-empty and the page holds records |
| Paging.AnswerPage | openalex_cooccurrence.py:86-111 | a page delivered within the retry limit is answered with what the body makes of it |
| Paging.AnswerWithheld | openalex_cooccurrence.py:67-68 | a request no attempt answers within the limit has no answer |
| Paging.AnswersDelivered | openalex_cooccurrence.py:86 | every request in a range whose page is delivered is answered with that page |
| Paging.CrawlDelivered | openalex_cooccurrence.py:88-111 | from request `j` to the first page that does not continue, the result holds two things. The count is the current count if non-zero, else the first non-zero `meta.count` of those pages. The rows are all their records' rows in order, the stopping page's included |
| Paging.CrawlDeliveredCursors | openalex_cooccurrence.py:73-108 | from request `j` to the stopping page `n`, the loop sends exactly n+1-j requests. The first carries the current cursor and each later one the `next_cursor` of the page before it |
| Paging.FetchDelivered | openalex_cooccurrence.py:71-113 | when pages 0..n are delivered, pages before n continue and page n does not, the fetch makes exactly n+1 requests. Their cursors are `*` and then each earlier page's cursor. The count is the first non-zero count. The rows are the records' rows of all n+1 pages in order |
| Paging.CrawlRunsOut | openalex_cooccurrence.py:58-111 | when the pages from `j` continue and the request after them gets no answer, the loop fails as unreachable after one request per page plus one |
| Paging.FetchRunsOut | openalex_cooccurrence.py:58-113 | a request that exhausts its retries after some continuing pages fails the whole pair. It fails after one request per page plus one, and the rows of the earlier pages are not returned |
| Runner.Accumulate | openalex_cooccurrence.py:139-157 | the loop appends a summary row and extends the works pair by pair. It ends with exactly the reference summary and the concatenated works of the successful fetches |
| Runner.Aggregate | openalex_cooccurrence.py:144-157 | one summary row per pair with the pair's names. Its count text is exactly `str()` of the fetched count, or of 0 when the fetch failed, so `int()` reads it back and a failed pair's text is "0". The works are the successful fetches' rows in order |
| Runner.Run | openalex_cooccurrence.py:134-157 | a whole run: every pair has its summary row in order, whatever happened to earlier pairs, with the pair's names and exactly `str()` of its count (0 for a failed fetch). The works are the successful fetches' rows in order, and each carries one of the pairs |
| Runner.GatheredCarriesPairs | openalex_cooccurrence.py:157 | when every successful fetch's rows carry its pair, every gathered row carries one of the pairs |
| Runner.GatheredAppend | openalex_cooccurrence.py:157 | gathering works distributes over splitting the list of pairs |
| Runner.FailedPairContained | openalex_cooccurrence.py:144-157 | a failed pair gets the count text "0". It contributes no rows, not even rows of pages it fetched before failing, and the works are those of the pairs before it followed by those after it |
| Runner.GatheredSkipsFailure | openalex_cooccurrence.py:146-157 | a failed fetch adds nothing to the works |

## Left out

- Network I/O, `urlopen` with its 60-second timeout, and `json.load`. They are replaced by a transcript of attempt outcomes per request. A failure's message is an uninterpreted string.
- URL encoding and `BASE_URL`. A request is the record of its query parameters. `per-page` is kept as the number 200, whose text is "200".
- `time.sleep` and the float `sleep_s`. Waits are recorded as the integer multipliers `attempt + 1` of the base delay.
- The text of the `RuntimeError` message. The model keeps the URL and the last attempt's message as separate fields.
- `write_outputs` and the CSV files. The two reports are the sequences of rows.
- `sys.argv` and the `.strip()` of the mail address. The address is a parameter.
- `print` progress output.
- The contents of `DEFAULT_PAIRS`. The pairs are a parameter.
- Floating-point JSON numbers, and `int()` of a float. JSON values have integers only.
- `str()` of a list or an object (Python `repr`). It is kept symbolic as `ReprOf(value)`.
- `int()` of strings with surrounding whitespace, underscores or non-ASCII digits. The model accepts only an optional sign followed by ASCII digits and treats any other text as a failure.
- Which exception type is raised. Every failure inside a pair's fetch is absorbed the same way by `main`. The model distinguishes only "no response within the retries" from "response the body could not process".
- Paging.Parse: its contract states only what every processed response satisfies. What it makes of a well-shaped response is stated by Paging.ParsePage, and the shapes that raise are listed above.
- Paging.Parse: the order of the checks differs from the script. `int(meta.count)` is evaluated before the records, while the script evaluates it only while the count is 0. The loop consults the result only while the count is 0, so the outcome is the same.
- Paging.Answers: all answers are computed up front, while the script fetches lazily. Answers to requests the loop never sends do not affect its result.
