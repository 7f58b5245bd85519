# Smart Parquet utilities: a verified model

This project models the helper module `httpcachefs/smart_parquet/utils.py` of
httpcachefs. httpcachefs reads a remote Parquet file over HTTP range requests
and caches the footer, row-group statistics and query results on disk. The
helpers model four things:

- **`extract_sql_url`** finds the URL in `FROM '<url>'` of a SQL query. It does this
  with the case-insensitive regular expression `FROM\s+'([^']+)'` under
  `re.search`. The model (`SqlUrl`) is a recursive left-to-right scan. It is proved
  against a declarative predicate `MatchSpan(s, i, open, close)`, which says "the
  pattern matches at `i` with its quotes at `open` and `close`". The result is
  `None` exactly when the pattern matches nowhere. Otherwise it is the text
  captured by the leftmost match. That text is non-empty and holds no quote, and
  the query splits around it as prefix + keyword + whitespace + quote + URL +
  quote + suffix.
- **`get_url_hash` / `get_query_hash`** name the cache directory of a URL and the
  cache entry of a query. SHA-256 is left abstract (`CacheKeys.Sha256Hex`, any
  function from bytes to 64 lower-case hex digits). What is modelled is what gets
  hashed:
  - the UTF-8 encoding of the text (`Utf8`);
  - for queries, the text `key + "|" + str(columns)`, using Python's rendering of
    `None` and of a list of strings (`PyRepr`).

  Each encoding has a decoder, and the round trips are proved. So two different
  URLs, or two different column selections under one key, get the same digest
  only through a SHA-256 collision.
- **`extract_partition_column`** picks the column a query filters on. The model
  (`PartitionColumn`) does not parse SQL. It takes the parser's result as input:
  parse failure, no WHERE clause, or the equality and `IN` nodes of the first WHERE
  clause the parser's search finds, in the order that search visits them. It returns the unqualified name of the first
  node that is an equality with a column on its left, or an `IN` on a column.
- **`atomic_write`** writes a file through a temporary file and a rename. It
  retries Windows lock conflicts with exponential backoff. The model
  (`AtomicWrite.Write`) is a method with the source's `for` loop, `continue` and
  `break`. It runs over given attempt outcomes and reports the attempts made, the
  sleeps in milliseconds, and how the call ends. `IsRun` describes the whole run,
  and `RunIsDetermined` shows that this description leaves nothing open.

Rules the model follows from the code, not from the comments:

- The comment in `extract_sql_url` says the whitespace after `FROM` is optional.
  The regex requires at least one whitespace character, so `FROM'x'` does not
  match.
- `max_retries` counts attempts, not retries.
- With the default of 3 attempts, the sleeps are 10 ms and 20 ms. The 40 ms that
  a comment mentions never happens (`DefaultBackoffs`).

Inputs that stand for things outside the model:

- SHA-256 is the parameter `sha`.
- The SQL parser's output is the `ParseOutcome` value.
- The file-system steps of each write attempt are the function `outcome`.
- `time.sleep` becomes the returned list of delays.

## Model

| member | source | states |
|---|---|---|
| SqlUrl.SkipSpaces | httpcachefs/smart_parquet/utils.py:172 | the greedy `\s+` run starting at a position: every character before the result is whitespace, and the result is the end of the text or a non-whitespace character |
| SqlUrl.SkipNonQuotes | httpcachefs/smart_parquet/utils.py:172 | the greedy `[^']+` run: no quote before the result, and the result is the end of the text or a quote |
| SqlUrl.MatchAt | httpcachefs/smart_parquet/utils.py:172 | the pattern tried at one start position succeeds exactly when some span matches there, and then it returns that span, which is unique |
| SqlUrl.Search | httpcachefs/smart_parquet/utils.py:172 | `re.search` from a position: a returned match is a real match with no match starting earlier; `None` means no match at or after the position |
| SqlUrl.ExtractSqlUrl | httpcachefs/smart_parquet/utils.py:156-175 | `None` exactly when the pattern matches at no position; otherwise the capture of the leftmost match, which is non-empty and contains no `'` |
| SqlUrl.LeftmostCaptureUnique | httpcachefs/smart_parquet/utils.py:172-175 | at most one text is the capture of the leftmost match, so the contract of `ExtractSqlUrl` leaves only one possible result |
| SqlUrl.ExtractDecomposes | httpcachefs/smart_parquet/utils.py:172-174 | a returned URL splits the query as prefix + case-insensitive `FROM` + non-empty whitespace + `'` + URL + `'` + suffix, with no match starting inside the prefix |
| SqlUrl.NoWhitespaceNoMatch | httpcachefs/smart_parquet/utils.py:172 | `FROM` directly followed by `'` never matches at that position |
| SqlUrl.ExampleNewlineIndent | httpcachefs/smart_parquet/utils.py:159-163 | a newline followed by indentation counts as the whitespace after `FROM` |
| SqlUrl.ExampleNoWhitespaceSkipped | httpcachefs/smart_parquet/utils.py:171-174 | `FROM'x' from 'y'` yields `y`: the failed first position does not stop the search, and lower-case `from` matches |
| Utf8.Encode | httpcachefs/smart_parquet/utils.py:22 | `str.encode()` writes each character as one to four bytes, so the encoding is at least as long as the text and at most four times as long |
| Utf8.DecodeEncode | httpcachefs/smart_parquet/utils.py:22 | decoding the UTF-8 bytes that `str.encode()` produces gives back the text |
| Utf8.EncodeInjective | httpcachefs/smart_parquet/utils.py:22 | different texts have different UTF-8 encodings |
| PyRepr.QuoteFor | httpcachefs/smart_parquet/utils.py:35 | `repr` of a string quotes with `'` or `"`, and uses a quote character that occurs in the text only when both quote characters occur |
| PyRepr.EscapeBody | httpcachefs/smart_parquet/utils.py:35 | the text between the quotes of a `repr` is no shorter than the string, and printable ASCII without quotes or backslashes is written unchanged |
| PyRepr.StrRepr | httpcachefs/smart_parquet/utils.py:35 | `repr` of a column name starts and ends with the same quote, the one `QuoteFor` picks, and a name of plain characters renders as `'` + name + `'` |
| PyRepr.ListRepr | httpcachefs/smart_parquet/utils.py:35 | `str()` of a list of strings is enclosed in `[` and `]` |
| PyRepr.ColumnsRepr | httpcachefs/smart_parquet/utils.py:35 | `str(columns)` is `None` exactly when `columns` is `None`; a list renders enclosed in `[` and `]` |
| PyRepr.ExampleApostropheItem | httpcachefs/smart_parquet/utils.py:35 | a column name holding `'` and no `"` is quoted with `"` and written unescaped, as Python prints it |
| PyRepr.StrReprRoundTrip | httpcachefs/smart_parquet/utils.py:35 | reading back one item's `repr`, followed by anything, gives the item and exactly what follows it |
| PyRepr.ListReprRoundTrip | httpcachefs/smart_parquet/utils.py:35 | reading back `str()` of a list of strings gives the list |
| PyRepr.ColumnsReprRoundTrip | httpcachefs/smart_parquet/utils.py:35 | reading back `str(columns)` gives `columns`, including `None` |
| PyRepr.ColumnsReprInjective | httpcachefs/smart_parquet/utils.py:35 | different column selections render differently |
| CacheKeys.UrlHash | httpcachefs/smart_parquet/utils.py:12-22 | the URL hash is `sha` of the UTF-8 bytes of the URL, bytes that decode back to the URL |
| CacheKeys.QueryPreimage | httpcachefs/smart_parquet/utils.py:35 | the hashed text of a query is the key, then a vertical bar, then a rendering that decodes back to the columns |
| CacheKeys.QueryHash | httpcachefs/smart_parquet/utils.py:24-36 | the query hash is `sha` of the UTF-8 bytes of key + vertical bar + `str(columns)`, bytes that decode back to that text |
| CacheKeys.QueryPreimageInjective | httpcachefs/smart_parquet/utils.py:35 | under one key, equal hashed texts mean equal column selections |
| CacheKeys.QueryHashCollisionOnly | httpcachefs/smart_parquet/utils.py:24-36 | under one key, two different column selections with the same query hash hash different bytes, so the match is a SHA-256 collision |
| CacheKeys.UrlHashCollisionOnly | httpcachefs/smart_parquet/utils.py:12-22 | two different URLs with the same URL hash hash different bytes, so the match is a SHA-256 collision |
| CacheKeys.NoneIsNotEmptyList | httpcachefs/smart_parquet/utils.py:35 | `columns = None` gives the key, a vertical bar and `None`; the empty list gives the key, a vertical bar and `[]`; and no list has the same text as `None` |
| CacheKeys.ExampleListPreimage | httpcachefs/smart_parquet/utils.py:35 | `["id", "it's"]` renders as Python prints it, `['id', "it's"]` |
| PartitionColumn.FirstColumn | httpcachefs/smart_parquet/utils.py:64-80 | the loop over the conditions returns `None` exactly when no condition qualifies; otherwise it returns the name of the first qualifying condition, and that name is the only one that fits this description |
| PartitionColumn.ExtractPartitionColumn | httpcachefs/smart_parquet/utils.py:56-83 | `None` on a parse failure, when there is no WHERE clause, or when no condition qualifies; otherwise the unqualified column name of the first equality with a column on the left or `IN` on a column |
| PartitionColumn.RightHandColumnSkipped | httpcachefs/smart_parquet/utils.py:67-77 | an equality without a column on its left, such as `1 = id`, is passed over and the search goes on |
| PartitionColumn.ExampleQualifiedColumn | httpcachefs/smart_parquet/utils.py:48 | `table.id = 1 AND status = 2` gives the unqualified `id` |
| PartitionColumn.ExampleInAfterRightHandColumn | httpcachefs/smart_parquet/utils.py:64-78 | `1 = uuid AND key IN (...)` gives `key`, from the `IN` |
| AtomicWrite.Contains | httpcachefs/smart_parquet/utils.py:127-128 | Python's `p in s`: true exactly when `p` occurs in `s` at some position |
| AtomicWrite.IsLockError | httpcachefs/smart_parquet/utils.py:125-130 | an error counts as a lock conflict exactly when it is an `OSError` whose message contains `being used by another process` or `Permission denied` at some position |
| AtomicWrite.Write | httpcachefs/smart_parquet/utils.py:85-154 | the run satisfies `IsRun`: with `max_retries <= 0` no attempt and `RuntimeError`; otherwise 1 to `max_retries` attempts, each before the last a lock error; an early stop only on success or a non-lock error; one sleep of 2^k x 10 ms before each retry; `Written` on success, otherwise the last error re-raised |
| AtomicWrite.RunIsDetermined | httpcachefs/smart_parquet/utils.py:101-144 | the outcomes and `max_retries` fix the ending, the attempt count and the sleeps |
| AtomicWrite.TotalBackoff | httpcachefs/smart_parquet/utils.py:134 | the sleeps before r retries add up to (2^r - 1) x 10 ms |
| AtomicWrite.DefaultBackoffs | httpcachefs/smart_parquet/utils.py:85-137 | with the default `max_retries = 3` the sleeps are none, `[10]` or `[10, 20]`, at most 30 ms in all |
| AtomicWrite.PersistentLockExhaustsRetries | httpcachefs/smart_parquet/utils.py:132-140 | when every attempt hits a lock, all `max_retries` attempts run, `max_retries - 1` sleeps happen, and the last error is raised |

## Left out

- SHA-256 and `hexdigest()` are not computed. They are the abstract parameter `sha`, whose results are any 64-character lower-case hex strings. No property of SHA-256 itself, such as collision resistance, is assumed.
- The SQL parser (`sqlglot.parse_one`, `find`, `find_all`) and the order its search visits nodes in are not modelled. The parse result is an input. Any exception raised while parsing or in the loop becomes `ParseFailed`.
- AtomicWrite.Write: does not model the file-system effects:
  - the directory creation, the stale temporary-file removal and its swallowed `OSError`, the write, and the rename (together they are `outcome(k)`);
  - the final temporary-file cleanup.

  It also leaves out logging, and `time.sleep` is modelled only as the list of delays.
- AtomicWrite.Write: returns the delays in whole milliseconds instead of the floating-point seconds `(2 ** attempt) * 0.01`.
- AtomicWrite.Write: does not model a `BaseException` that is not an `Exception`, such as `KeyboardInterrupt`. Such an exception passes through `atomic_write` uncaught.
- CacheKeys.UrlHash: a Dafny `char` is a Unicode scalar value, so a URL holding a lone surrogate such as U+D800 cannot be represented. On such a text `url.encode()` raises `UnicodeEncodeError` and `get_url_hash` raises; the model has no such input and no error result.
- CacheKeys.QueryHash: likewise, a key or column name holding a lone surrogate cannot be represented. On it `key.encode()` raises `UnicodeEncodeError` and `get_query_hash` raises; the model has no such input and no error result.
- SqlUrl.ExtractSqlUrl: is modelled only on queries without lone surrogates, for the same reason.
- SqlUrl.IsSpace: follows the set of characters `str.isspace()` accepts, which is what `\s` matches in Python. Case-insensitive matching of `FROM` uses ASCII folding. These four letters have no other case equivalents in Python's matcher.
- PyRepr.EscapeChar: treats every character above U+00FF as printable. CPython escapes the non-printable ones, such as U+2028, as `\uXXXX` or `\UXXXXXXXX`. The escapes for U+0000 to U+00FF follow CPython exactly.
- PyRepr.ColumnsRepr: covers only the rendering for `None` or a list of `str`, the types `get_query_hash` declares. It does not cover other sequence types a caller might pass.
- `test_performance.py` is not part of this model. It is a benchmark that reads over the network and measures wall-clock time.
